/** Bounded observation windows (src/window.cpp): what is retained, what is selected, and when a
    bounded window selects what an unbounded history would. */
module Window {
  import opened Errors
  import opened CanonicalBytes
  import opened Lists
  import opened Samples

  const MAX_WINDOW_SAMPLES: nat := 65536
  const MAX_WINDOW_DURATION_NS: nat := 3_600_000_000_000

  datatype WindowKind = Count | Time | Tumbling

  datatype WindowPolicy = WindowPolicy(kind: WindowKind, count: nat, durationNs: I64, capacity: nat, anchorNs: I64)

  // What validate_window_policy accepts.
  predicate ValidPolicy(p: WindowPolicy) {
    && 1 <= p.capacity <= MAX_WINDOW_SAMPLES
    && (if p.kind.Count? then 1 <= p.count <= p.capacity else 1 <= p.durationNs <= MAX_WINDOW_DURATION_NS)
  }

  // What the engine keeps one window for.
  datatype WindowKey = WindowKey(series: Id, generation: Id)

  function KeyOf(s: Sample): WindowKey {
    WindowKey(s.series, s.generation)
  }

  datatype Owner = Owner(series: Id, generation: Id, ordinal: U64)

  function OwnerOf(s: Sample): Owner {
    Owner(s.series, s.generation, s.generationOrdinal)
  }

  datatype Contents = Contents(
    owner: Option<Owner>, samples: seq<Sample>, newest: Option<I64>,
    evicted: nat, outOfOrder: nat, duplicates: nat, mismatched: nat)

  const EMPTY: Contents := Contents(None, [], None, 0, 0, 0, 0)

  // ---------------------------------------------------------------------------
  // Adding
  // ---------------------------------------------------------------------------

  predicate Foreign(w: Contents, s: Sample) {
    w.owner.Some? && (w.owner.value.series != s.series || w.owner.value.generation != s.generation)
  }

  ghost predicate HasId(samples: seq<Sample>, id: Id) {
    exists i :: 0 <= i < |samples| && samples[i].id == id
  }

  /** The window after one observation arrived. */
  ghost function Added(p: WindowPolicy, w: Contents, s: Sample): Contents {
    if Foreign(w, s) then w.(mismatched := w.mismatched + 1)
    else
      var owned := w.(owner := if w.owner.Some? then w.owner else Some(OwnerOf(s)));
      if HasId(w.samples, s.id) then owned.(duplicates := w.duplicates + 1)
      else
        var late := w.newest.Some? && s.observedAt.ticks < w.newest.value;
        var all := w.samples + [s];
        owned.(
          samples := LastN(all, p.capacity),
          newest := if late then w.newest else Some(s.observedAt.ticks),
          outOfOrder := w.outOfOrder + if late then 1 else 0,
          evicted := w.evicted + |all| - |LastN(all, p.capacity)|)
  }

  ghost function AddedAll(p: WindowPolicy, h: seq<Sample>): Contents {
    if h == [] then EMPTY else Added(p, AddedAll(p, h[..|h| - 1]), h[|h| - 1])
  }

  /** What the window kept for a key holds: distinct observations of that series and generation, no
      more than its capacity. */
  ghost predicate KeptFor(p: WindowPolicy, k: WindowKey, w: Contents) {
    && (w.owner.Some? ==> w.owner.value.series == k.series && w.owner.value.generation == k.generation)
    && |w.samples| <= p.capacity && DistinctIds(w.samples)
    && forall i :: 0 <= i < |w.samples| ==> KeyOf(w.samples[i]) == k
  }

  /** Such a window refuses no observation of its key, and stays such a window. */
  lemma AddedKeeps(p: WindowPolicy, k: WindowKey, w: Contents, s: Sample)
    requires KeptFor(p, k, w) && KeyOf(s) == k
    ensures !Foreign(w, s) && KeptFor(p, k, Added(p, w, s))
  {
  }

  // ---------------------------------------------------------------------------
  // Selecting
  // ---------------------------------------------------------------------------

  predicate WithinDuration(p: WindowPolicy, newest: int, ticks: int) {
    newest >= ticks && newest - ticks <= p.durationNs
  }

  predicate BucketKnown(p: WindowPolicy, newest: int) {
    newest >= p.anchorNs && newest - p.anchorNs <= MAX_WINDOW_DURATION_NS
  }

  function BucketStart(p: WindowPolicy, offset: nat): int
    requires p.durationNs > 0
  {
    offset - offset % p.durationNs
  }

  predicate Kept(p: WindowPolicy, newest: int, ticks: int)
    requires p.durationNs > 0
  {
    if p.kind.Tumbling? && BucketKnown(p, newest) then
      && ticks >= p.anchorNs && ticks - p.anchorNs <= MAX_WINDOW_DURATION_NS
      && BucketStart(p, ticks - p.anchorNs) == BucketStart(p, newest - p.anchorNs)
    else WithinDuration(p, newest, ticks)
  }

  function KeptOf(p: WindowPolicy, newest: int, s: seq<Sample>): seq<Sample>
    requires p.durationNs > 0
  {
    if s == [] then [] else KeptOne(p, newest, s[0]) + KeptOf(p, newest, s[1..])
  }

  function KeptOne(p: WindowPolicy, newest: int, x: Sample): seq<Sample>
    requires p.durationNs > 0
  {
    if Kept(p, newest, x.observedAt.ticks) then [x] else []
  }

  function NewestOf(ordered: seq<Sample>): int
    requires ordered != []
  {
    ordered[|ordered| - 1].observedAt.ticks
  }

  function SelectedFrom(p: WindowPolicy, ordered: seq<Sample>): seq<Sample>
    requires ValidPolicy(p)
  {
    if ordered == [] then []
    else if p.kind.Count? then LastN(ordered, p.count)
    else KeptOf(p, NewestOf(ordered), ordered)
  }

  /** What a window holding these samples selects. */
  function Selected(p: WindowPolicy, s: seq<Sample>): seq<Sample>
    requires ValidPolicy(p)
  {
    SelectedFrom(p, Canonical(s))
  }

  lemma KeptOneIs(p: WindowPolicy, newest: int, x: Sample)
    requires p.durationNs > 0
    ensures KeptOne(p, newest, x) == if Kept(p, newest, x.observedAt.ticks) then [x] else []
  {
  }

  lemma CanonicalSize(s: seq<Sample>)
    ensures |Canonical(s)| == |s|
  {
    SortMembers(Less, s);
  }

  // ---------------------------------------------------------------------------
  // The window object
  // ---------------------------------------------------------------------------

  class SampleWindow {
    const policy: WindowPolicy
    var samples: seq<Sample>
    var owner: Option<Owner>
    var evictedByCapacity: nat
    var outOfOrderAccepted: nat
    var duplicateIgnored: nat
    var rejectedMismatch: nat
    var newestTicks: I64
    var hasNewest: bool

    ghost function Value(): Contents
      reads this
    {
      Contents(owner, samples, if hasNewest then Some(newestTicks) else None,
               evictedByCapacity, outOfOrderAccepted, duplicateIgnored, rejectedMismatch)
    }

    constructor (policy: WindowPolicy)
      ensures this.policy == policy && Value() == EMPTY
    {
      this.policy := policy;
      samples, owner := [], None;
      evictedByCapacity, outOfOrderAccepted, duplicateIgnored, rejectedMismatch := 0, 0, 0, 0;
      newestTicks, hasNewest := 0, false;
    }

    method Add(sample: Sample) returns (status: Status)
      modifies this
      ensures Value() == Added(policy, old(Value()), sample)
      ensures status == if Foreign(old(Value()), sample) then Failure(Conflict) else Success
    {
      if owner.None? {
        owner := Some(OwnerOf(sample));
      } else if owner.value.series != sample.series || owner.value.generation != sample.generation {
        rejectedMismatch := rejectedMismatch + 1;
        return Failure(Conflict);
      }
      for i := 0 to |samples|
        invariant forall j :: 0 <= j < i ==> samples[j].id != sample.id
      {
        if samples[i].id == sample.id {
          duplicateIgnored := duplicateIgnored + 1;
          return Success;
        }
      }
      Store(sample);
      status := Success;
    }

    // The tail of add: bookkeeping, append, eviction from the front.
    method Store(sample: Sample)
      modifies this
      ensures owner == old(owner)
      ensures samples == LastN(old(samples) + [sample], policy.capacity)
      ensures evictedByCapacity == old(evictedByCapacity) + |old(samples)| + 1 - |samples|
      ensures var late := old(hasNewest) && sample.observedAt.ticks < old(newestTicks);
        && hasNewest
        && newestTicks == (if late then old(newestTicks) else sample.observedAt.ticks)
        && outOfOrderAccepted == old(outOfOrderAccepted) + (if late then 1 else 0)
      ensures duplicateIgnored == old(duplicateIgnored) && rejectedMismatch == old(rejectedMismatch)
    {
      if hasNewest && sample.observedAt.ticks < newestTicks {
        outOfOrderAccepted := outOfOrderAccepted + 1;
      } else {
        newestTicks := sample.observedAt.ticks;
        hasNewest := true;
      }
      samples := samples + [sample];
      Evict();
    }

    method Evict()
      modifies this`samples, this`evictedByCapacity
      ensures samples == LastN(old(samples), policy.capacity)
      ensures evictedByCapacity == old(evictedByCapacity) + |old(samples)| - |samples|
    {
      ghost var n := |samples|;
      while |samples| > policy.capacity
        invariant |samples| <= n && samples == old(samples)[n - |samples|..]
        invariant |samples| >= if n < policy.capacity then n else policy.capacity
        invariant evictedByCapacity == old(evictedByCapacity) + n - |samples|
      {
        samples := samples[1..];
        evictedByCapacity := evictedByCapacity + 1;
      }
    }

    method Select() returns (selection: seq<Sample>, excluded: nat)
      requires ValidPolicy(policy)
      ensures selection == Selected(policy, samples)
      ensures |selection| + excluded == |samples|
    {
      hide Canonical, KeptOf, Kept;
      assert |Canonical(samples)| == |samples| by {
        CanonicalSize(samples);
      }
      selection, excluded := [], 0;
      if samples == [] {
        return;
      }
      var ordered := Canonical(samples);
      if policy.kind.Count? {
        if |ordered| > policy.count {
          excluded := |ordered| - policy.count;
          ordered := ordered[|ordered| - policy.count..];
        }
        selection := ordered;
        return;
      }
      selection := KeepFrom(ordered, NewestOf(ordered));
      excluded := |ordered| - |selection|;
    }

    method KeepFrom(ordered: seq<Sample>, newest: int) returns (kept: seq<Sample>)
      requires policy.durationNs > 0
      ensures kept == KeptOf(policy, newest, ordered)
      ensures |kept| <= |ordered|
    {
      hide KeptOne;
      kept := [];
      for i := 0 to |ordered|
        invariant KeptOf(policy, newest, ordered) == kept + KeptOf(policy, newest, ordered[i..])
        invariant |kept| <= i
      {
        assert ordered[i..][1..] == ordered[i + 1..];
        Regroup(kept, KeptOne(policy, newest, ordered[i]), KeptOf(policy, newest, ordered[i + 1..]));
        ghost var one := KeptOne(policy, newest, ordered[i]);
        KeptOneIs(policy, newest, ordered[i]);
        if Kept(policy, newest, ordered[i].observedAt.ticks) {
          kept := kept + [ordered[i]];
        } else {
          assert kept + one == kept;
        }
      }
    }
  }

  // ---------------------------------------------------------------------------
  // What is retained
  // ---------------------------------------------------------------------------

  ghost predicate OneOwner(h: seq<Sample>) {
    forall i, j :: 0 <= i < |h| && 0 <= j < |h| ==> h[i].series == h[j].series && h[i].generation == h[j].generation
  }

  /** The largest observation time of a non-empty history. */
  ghost predicate IsNewest(h: seq<Sample>, ticks: int) {
    && (exists i :: 0 <= i < |h| && h[i].observedAt.ticks == ticks)
    && (forall i :: 0 <= i < |h| ==> h[i].observedAt.ticks <= ticks)
  }

  /** w retains the last arrivals of h, has evicted the rest, and knows the newest observation
      time it ever accepted. */
  ghost predicate HoldsLast(p: WindowPolicy, w: Contents, h: seq<Sample>) {
    && w.samples == LastN(h, p.capacity)
    && w.evicted == |h| - |w.samples|
    && w.duplicates == 0 && w.mismatched == 0
    && w.owner == (if h == [] then None else Some(OwnerOf(h[0])))
    && (if h == [] then w.newest == None else w.newest.Some? && IsNewest(h, w.newest.value))
  }

  /** A window fed distinct observations of one series and generation holds the last arrivals. */
  lemma {:induction false} RetainsLastArrivals(p: WindowPolicy, h: seq<Sample>)
    requires DistinctIds(h) && OneOwner(h)
    ensures HoldsLast(p, AddedAll(p, h), h)
  {
    hide HoldsLast, Added;
    if h == [] {
      NothingHeld(p);
    } else {
      var n := |h| - 1;
      RetainsLastArrivals(p, h[..n]);
      RetainsNext(p, AddedAll(p, h[..n]), h);
    }
  }

  lemma NothingHeld(p: WindowPolicy)
    ensures HoldsLast(p, EMPTY, [])
  {
  }

  lemma RetainsNext(p: WindowPolicy, w: Contents, h: seq<Sample>)
    requires h != [] && DistinctIds(h) && OneOwner(h) && HoldsLast(p, w, h[..|h| - 1])
    ensures HoldsLast(p, Added(p, w, h[|h| - 1]), h)
  {
    hide Added, LastN, HasId, IsNewest, DistinctIds, OwnerOf;
    var n := |h| - 1;
    NotRetainedTwice(h, p.capacity);
    AddFresh(p, w, h[n], h[0]);
    LastOfLast(h[..n], [h[n]], p.capacity);
    NewestSoFar(h[..n], h[n], w.newest);
    assert h == h[..n] + [h[n]];
  }

  /** Whatever the arrivals, a window retains nothing that did not arrive. */
  lemma {:induction false} RetainsOnlyArrivals(p: WindowPolicy, h: seq<Sample>, x: Sample)
    requires x in AddedAll(p, h).samples
    ensures x in h
  {
    hide HasId;
    if h != [] {
      var w := AddedAll(p, h[..|h| - 1]);
      if x in w.samples {
        RetainsOnlyArrivals(p, h[..|h| - 1], x);
      }
      assert h == h[..|h| - 1] + [h[|h| - 1]];
    }
  }

  lemma NotRetainedTwice(h: seq<Sample>, n: nat)
    requires DistinctIds(h) && h != []
    ensures !HasId(LastN(h[..|h| - 1], n), h[|h| - 1].id)
  {
  }

  lemma AddFresh(p: WindowPolicy, w: Contents, s: Sample, first: Sample)
    requires !HasId(w.samples, s.id)
    requires first.series == s.series && first.generation == s.generation
    requires w.owner == None || w.owner == Some(OwnerOf(first))
    ensures var w' := Added(p, w, s);
      && w'.samples == LastN(w.samples + [s], p.capacity)
      && w'.evicted == w.evicted + |w.samples| + 1 - |w'.samples|
      && w'.duplicates == w.duplicates && w'.mismatched == w.mismatched
      && w'.owner == (if w.owner.Some? then w.owner else Some(OwnerOf(s)))
      && w'.newest == Some(if w.newest.Some? && s.observedAt.ticks < w.newest.value then w.newest.value
                           else s.observedAt.ticks)
  {
  }

  lemma NewestSoFar(h: seq<Sample>, s: Sample, newest: Option<I64>)
    requires if h == [] then newest == None else newest.Some? && IsNewest(h, newest.value)
    ensures IsNewest(
      h + [s], if newest.Some? && s.observedAt.ticks < newest.value then newest.value else s.observedAt.ticks)
  {
    var all := h + [s];
    assert all[|h|] == s;
    assert forall i :: 0 <= i < |h| ==> all[i] == h[i];
    if newest.Some? && s.observedAt.ticks < newest.value {
      var i :| 0 <= i < |h| && h[i].observedAt.ticks == newest.value;
      assert all[i].observedAt.ticks == newest.value;
    }
  }

  // ---------------------------------------------------------------------------
  // What a selection contains
  // ---------------------------------------------------------------------------

  lemma {:induction false} KeptMember(p: WindowPolicy, newest: int, s: seq<Sample>, x: Sample)
    requires p.durationNs > 0
    ensures x in KeptOf(p, newest, s) <==> x in s && Kept(p, newest, x.observedAt.ticks)
  {
    if s != [] {
      KeptMember(p, newest, s[1..], x);
      assert s == [s[0]] + s[1..];
    }
  }

  lemma {:induction false} KeptConcat(p: WindowPolicy, newest: int, a: seq<Sample>, b: seq<Sample>)
    requires p.durationNs > 0
    ensures KeptOf(p, newest, a + b) == KeptOf(p, newest, a) + KeptOf(p, newest, b)
  {
    hide KeptOne;
    if a == [] {
      assert a + b == b;
    } else {
      KeptConcat(p, newest, a[1..], b);
      assert (a + b)[1..] == a[1..] + b;
      Regroup(KeptOne(p, newest, a[0]), KeptOf(p, newest, a[1..]), KeptOf(p, newest, b));
    }
  }

  /** The newest observation is the last one in canonical order, and it is kept. */
  lemma NewestLast(p: WindowPolicy, s: seq<Sample>)
    requires DistinctIds(s) && s != []
    ensures |Canonical(s)| == |s| && IsNewest(s, NewestOf(Canonical(s)))
    ensures ValidPolicy(p) && !p.kind.Count? ==> Kept(p, NewestOf(Canonical(s)), NewestOf(Canonical(s)))
  {
    hide Canonical, Less;
    var ordered := Canonical(s);
    CanonicalAscending(s);
    CanonicalSize(s);
    var last := ordered[|ordered| - 1];
    SameMembers(s, last);
    forall i | 0 <= i < |s|
      ensures s[i].observedAt.ticks <= last.observedAt.ticks
    {
      SameMembers(s, s[i]);
      LastIsLatest(ordered, s[i]);
    }
  }

  lemma LastIsLatest(s: seq<Sample>, x: Sample)
    requires Ascending(s) && x in s
    ensures x.observedAt.ticks <= s[|s| - 1].observedAt.ticks
  {
    var i :| 0 <= i < |s| && s[i] == x;
    if i < |s| - 1 {
      assert Less(s[i], s[|s| - 1]);
    }
  }

  lemma SameMembers(s: seq<Sample>, x: Sample)
    ensures x in Canonical(s) <==> x in s
  {
    SortMembers(Less, s);
    assert x in s <==> x in multiset(s);
    assert x in Canonical(s) <==> x in multiset(Canonical(s));
  }

  /** A time window selects exactly the retained readings no older than its duration, measured
      from the newest one present. */
  lemma TimeSelects(p: WindowPolicy, s: seq<Sample>, x: Sample, newest: int)
    requires ValidPolicy(p) && p.kind.Time? && DistinctIds(s) && IsNewest(s, newest)
    ensures x in Selected(p, s) <==> x in s && newest - p.durationNs <= x.observedAt.ticks
  {
    hide Canonical;
    NewestLast(p, s);
    SameMembers(s, x);
    KeptMember(p, newest, Canonical(s), x);
    SameNewest(s, newest, NewestOf(Canonical(s)));
  }

  lemma SameNewest(s: seq<Sample>, a: int, b: int)
    requires IsNewest(s, a) && IsNewest(s, b)
    ensures a == b
  {
  }

  /** Where the fixed bucket of a time begins, counted from the anchor. */
  function BucketFrom(p: WindowPolicy, ticks: int): int
    requires p.durationNs > 0
  {
    p.anchorNs + (ticks - p.anchorNs) / p.durationNs * p.durationNs
  }

  /** A tumbling window selects the retained readings of the half-open bucket that holds the newest
      one while that lies at the anchor or at most an hour behind it. Otherwise it selects the
      readings within one duration of the newest, like a time window: these reach below the start of
      the bucket. */
  lemma TumblingSelects(p: WindowPolicy, s: seq<Sample>, x: Sample, newest: int)
    requires ValidPolicy(p) && p.kind.Tumbling? && DistinctIds(s) && IsNewest(s, newest)
    ensures var from := BucketFrom(p, newest);
      && newest - p.durationNs < from <= newest
      && (x in Selected(p, s) <==>
            x in s && (if BucketKnown(p, newest) then from else newest - p.durationNs) <= x.observedAt.ticks)
  {
    hide Canonical;
    NewestLast(p, s);
    SameMembers(s, x);
    KeptMember(p, newest, Canonical(s), x);
    SameNewest(s, newest, NewestOf(Canonical(s)));
    FloorOf(newest - p.anchorNs, p.durationNs);
    if x in s && BucketKnown(p, newest) {
      var i :| 0 <= i < |s| && s[i] == x;
      BucketIff(p, newest, x.observedAt.ticks);
    }
  }

  /** Every window with this newest time selects the bucket of the newest. */
  ghost predicate SelectsBucket(p: WindowPolicy, newest: int)
    requires ValidPolicy(p) && p.kind.Tumbling?
  {
    forall s: seq<Sample>, x: Sample :: SelectedByBucket(p, newest, s, x)
  }

  ghost predicate SelectedByBucket(p: WindowPolicy, newest: int, s: seq<Sample>, x: Sample)
    requires ValidPolicy(p) && p.kind.Tumbling?
  {
    DistinctIds(s) && IsNewest(s, newest) ==>
      (x in Selected(p, s) <==> x in s && BucketFrom(p, newest) <= x.observedAt.ticks)
  }

  /** The fixed bucket is what is selected exactly while the newest reading lies at the anchor or at
      most an hour behind it; or when the bucket begins no later than time itself, so that nothing
      can lie below it. */
  lemma TumblingIsBucketIff(p: WindowPolicy, newest: I64)
    requires ValidPolicy(p) && p.kind.Tumbling?
    ensures SelectsBucket(p, newest) <==> BucketKnown(p, newest) || BucketFrom(p, newest) <= I64_MIN
  {
    hide Selected, BucketFrom;
    if BucketKnown(p, newest) || BucketFrom(p, newest) <= I64_MIN {
      forall s: seq<Sample>, x: Sample
        ensures SelectedByBucket(p, newest, s, x)
      {
        if DistinctIds(s) && IsNewest(s, newest) {
          TumblingSelects(p, s, x, newest);
        }
      }
    } else {
      BucketHoldsNewest(p, newest);
      var other := NIL_ID[0 := if NIL_ID[0] == 0 then 1 else 0];
      assert other[0] != NIL_ID[0];
      var a, b := ReadingAt(NIL_ID, BucketFrom(p, newest) - 1), ReadingAt(other, newest);
      OutsideBucket(p, a, b);
    }
  }

  lemma BucketHoldsNewest(p: WindowPolicy, newest: int)
    requires p.durationNs > 0
    ensures newest - p.durationNs < BucketFrom(p, newest) <= newest
  {
    FloorOf(newest - p.anchorNs, p.durationNs);
  }

  /** Two readings in different buckets, both selected: the earlier one within a duration of the
      newest, which is before the anchor or more than an hour past it. */
  lemma OutsideBucket(p: WindowPolicy, a: Sample, b: Sample)
    requires ValidPolicy(p) && p.kind.Tumbling? && a.id != b.id && !BucketKnown(p, b.observedAt.ticks)
    requires a.observedAt.ticks < BucketFrom(p, b.observedAt.ticks)
    requires b.observedAt.ticks - p.durationNs <= a.observedAt.ticks
    ensures a in Selected(p, [a, b]) && b in Selected(p, [a, b])
    ensures !SelectsBucket(p, b.observedAt.ticks)
  {
    hide Selected, BucketFrom;
    var s, newest := [a, b], b.observedAt.ticks;
    BucketHoldsNewest(p, newest);
    assert s[0] == a && s[1] == b;
    assert IsNewest(s, newest);
    TumblingSelects(p, s, a, newest);
    TumblingSelects(p, s, b, newest);
    assert !SelectedByBucket(p, newest, s, a);
  }

  // A reading at a time, with nothing else to it.
  function ReadingAt(id: Id, ticks: I64): Sample {
    Sample(id, NIL_ID, NIL_ID, NIL_ID, 1, Provenance(NIL_ID, 1, 1, 1, 0, 0, []), 0,
           TimePoint(NIL_ID, ticks), TimePoint(NIL_ID, ticks), [], [], ZERO_DIGEST)
  }

  /** With the default anchor this is every reading after the first hour of the clock: of minute
      buckets, the one that begins at 7200 s keeps a reading at 7190 s. */
  lemma TumblingSlides(a: Sample, b: Sample)
    requires a.id != b.id && a.observedAt.ticks == 7190_000_000_000 && b.observedAt.ticks == 7200_000_000_000
    ensures var p := WindowPolicy(Tumbling, 256, 60_000_000_000, 512, 0);
      && ValidPolicy(p) && BucketFrom(p, a.observedAt.ticks) != BucketFrom(p, b.observedAt.ticks)
      && a in Selected(p, [a, b]) && b in Selected(p, [a, b])
  {
    OutsideBucket(WindowPolicy(Tumbling, 256, 60_000_000_000, 512, 0), a, b);
  }

  lemma BucketIff(p: WindowPolicy, newest: int, ticks: int)
    requires ValidPolicy(p) && p.kind.Tumbling? && BucketKnown(p, newest) && ticks <= newest
    ensures var from := p.anchorNs + (newest - p.anchorNs) / p.durationNs * p.durationNs;
      Kept(p, newest, ticks) <==> from <= ticks < from + p.durationNs
  {
    var n := newest - p.anchorNs;
    var t := ticks - p.anchorNs;
    FloorOf(n, p.durationNs);
    if t >= 0 {
      FloorOf(t, p.durationNs);
      SameFloor(n, t, p.durationNs);
    }
  }

  lemma FloorOf(n: int, d: int)
    requires d > 0
    ensures n - n % d == n / d * d
    ensures n / d * d <= n < n / d * d + d
    ensures n >= 0 ==> n / d * d >= 0
  {
    if n >= 0 {
      NotNegative(n / d, d);
    }
  }

  lemma NotNegative(k: nat, d: nat)
    ensures k * d >= 0
  {
  }

  lemma SameFloor(n: nat, t: nat, d: int)
    requires d > 0
    ensures n / d * d == t / d * d <==> n / d * d <= t < n / d * d + d
  {
    FloorOf(t, d);
    Apart(n / d, t / d, d);
  }

  lemma Apart(a: int, b: int, d: int)
    requires d > 0
    ensures a < b ==> a * d + d <= b * d
    ensures b < a ==> b * d + d <= a * d
  {
    if a < b {
      Multiple(b - a, d);
      assert (b - a) * d == b * d - a * d;
    } else if b < a {
      Multiple(a - b, d);
      assert (a - b) * d == a * d - b * d;
    }
  }

  lemma Multiple(k: int, d: int)
    requires k >= 1 && d > 0
    ensures k * d >= d
  {
  }

  // ---------------------------------------------------------------------------
  // A bounded window against the unbounded history
  // ---------------------------------------------------------------------------

  /** Where an insertion put the new sample. */
  lemma {:induction false} InsertSplits(d: Sample, s: seq<Sample>) returns (k: nat)
    ensures k <= |s| && Insert(Less, d, s) == s[..k] + [d] + s[k..]
    ensures forall i :: 0 <= i < k ==> !Less(d, s[i])
    ensures k < |s| ==> Less(d, s[k])
  {
    hide Less;
    if s == [] || Less(d, s[0]) {
      k := 0;
    } else {
      var j := InsertSplits(d, s[1..]);
      k := j + 1;
      assert s[..k] == [s[0]] + s[1..][..j];
      assert s[k..] == s[1..][j..];
      assert forall i :: 0 < i < k ==> s[i] == s[1..][i - 1];
    }
  }

  lemma CanonicalOfLater(d: Sample, t: seq<Sample>)
    ensures Canonical([d] + t) == Insert(Less, d, Canonical(t))
  {
    hide Less, Insert;
    assert ([d] + t)[1..] == t;
  }

  /** Forgetting the earliest arrival changes nothing if it was not selected. */
  lemma DropUnselected(p: WindowPolicy, d: Sample, t: seq<Sample>)
    requires ValidPolicy(p) && DistinctIds([d] + t)
    requires d !in Selected(p, [d] + t)
    ensures Selected(p, [d] + t) == Selected(p, t)
  {
    hide Canonical, Insert, Less, DistinctIds, Kept, KeptOf;
    CanonicalOfLater(d, t);
    var s := Canonical(t);
    var k := InsertSplits(d, s);
    if p.kind.Count? {
      LastWithout(d, s, k, p.count);
    } else {
      NewestLast(p, [d] + t);
      KeptWithout(p, d, s[..k], s[k..]);
      assert s == s[..k] + s[k..];
    }
  }

  lemma LastWithout(d: Sample, s: seq<Sample>, k: nat, c: nat)
    requires k <= |s| && c > 0
    requires d !in LastN(s[..k] + [d] + s[k..], c)
    ensures LastN(s[..k] + [d] + s[k..], c) == LastN(s, c)
  {
    var all := s[..k] + [d] + s[k..];
    InsideLast(all, k, c);
    assert all[k] == d;
    assert LastN(all, c) == LastN(s, c);
  }

  lemma InsideLast(s: seq<Sample>, k: nat, c: nat)
    requires k < |s|
    ensures |s| - c <= k ==> s[k] in LastN(s, c)
  {
    if |s| > c && |s| - c <= k {
      assert LastN(s, c)[k - (|s| - c)] == s[k];
    }
  }

  lemma KeptWithout(p: WindowPolicy, d: Sample, a: seq<Sample>, b: seq<Sample>)
    requires ValidPolicy(p) && !p.kind.Count?
    requires var newest := NewestOf(a + [d] + b);
      Kept(p, newest, newest) && d !in KeptOf(p, newest, a + [d] + b)
    ensures b != [] && NewestOf(a + [d] + b) == NewestOf(a + b)
    ensures KeptOf(p, NewestOf(a + b), a + [d] + b) == KeptOf(p, NewestOf(a + b), a + b)
  {
    hide Kept, KeptOf;
    var newest := NewestOf(a + [d] + b);
    KeptMember(p, newest, a + [d] + b, d);
    assert (a + [d] + b)[|a|] == d;
    NotKeptAlone(p, newest, d);
    KeptConcat(p, newest, a + [d], b);
    KeptConcat(p, newest, a, [d]);
    KeptConcat(p, newest, a, b);
  }

  lemma NotKeptAlone(p: WindowPolicy, newest: int, d: Sample)
    requires p.durationNs > 0 && !Kept(p, newest, d.observedAt.ticks)
    ensures KeptOf(p, newest, [d]) == []
  {
  }

  lemma SelectedMember(p: WindowPolicy, s: seq<Sample>, x: Sample)
    requires ValidPolicy(p) && x in Selected(p, s)
    ensures x in s
  {
    hide Canonical, Kept;
    SameMembers(s, x);
    if !p.kind.Count? {
      KeptMember(p, NewestOf(Canonical(s)), Canonical(s), x);
    }
  }

  /** For every kind of window: the bounded window selects what the unbounded history would,
      exactly when none of the evicted arrivals is selected from that history. */
  lemma {:induction false} BoundedAgreesIff(p: WindowPolicy, h: seq<Sample>)
    requires ValidPolicy(p) && DistinctIds(h)
    ensures Selected(p, LastN(h, p.capacity)) == Selected(p, h) <==>
      forall i :: 0 <= i < |h| - p.capacity ==> h[i] !in Selected(p, h)
  {
    hide Selected;
    if forall i :: 0 <= i < |h| - p.capacity ==> h[i] !in Selected(p, h) {
      UnselectedMayGo(p, h);
    } else {
      var i :| 0 <= i < |h| - p.capacity && h[i] in Selected(p, h);
      if h[i] in Selected(p, LastN(h, p.capacity)) {
        SelectedMember(p, LastN(h, p.capacity), h[i]);
      }
    }
  }

  lemma {:induction false} UnselectedMayGo(p: WindowPolicy, h: seq<Sample>)
    requires ValidPolicy(p) && DistinctIds(h)
    requires forall i :: 0 <= i < |h| - p.capacity ==> h[i] !in Selected(p, h)
    ensures Selected(p, LastN(h, p.capacity)) == Selected(p, h)
    decreases |h|
  {
    hide Selected;
    if |h| > p.capacity {
      var t := h[1..];
      assert h == [h[0]] + t;
      DropUnselected(p, h[0], t);
      assert forall i :: 0 <= i < |t| - p.capacity ==> t[i] == h[i + 1];
      UnselectedMayGo(p, t);
      assert LastN(t, p.capacity) == LastN(h, p.capacity);
    }
  }

  // ---------------------------------------------------------------------------
  // Count windows: how much disorder the spare capacity absorbs
  // ---------------------------------------------------------------------------

  /** Arrivals at least b apart are in canonical order. */
  ghost predicate OrderedBeyond(h: seq<Sample>, b: nat) {
    forall i, j :: 0 <= i && i + b <= j < |h| ==> Less(h[i], h[j])
  }

  function CountAbove(d: Sample, s: seq<Sample>): nat {
    if s == [] then 0 else (if Less(d, s[0]) then 1 else 0) + CountAbove(d, s[1..])
  }

  lemma {:induction false} CountAboveConcat(d: Sample, a: seq<Sample>, b: seq<Sample>)
    ensures CountAbove(d, a + b) == CountAbove(d, a) + CountAbove(d, b)
  {
    hide Less;
    if a == [] {
      assert a + b == b;
    } else {
      CountAboveConcat(d, a[1..], b);
      assert (a + b)[1..] == a[1..] + b;
    }
  }

  lemma {:induction false} CountAboveBounds(d: Sample, s: seq<Sample>)
    ensures CountAbove(d, s) <= |s|
    ensures (forall i :: 0 <= i < |s| ==> Less(d, s[i])) ==> CountAbove(d, s) == |s|
    ensures (forall i :: 0 <= i < |s| ==> !Less(d, s[i])) ==> CountAbove(d, s) == 0
  {
    hide Less;
    if s != [] {
      CountAboveBounds(d, s[1..]);
    }
  }

  lemma {:induction false} CountAboveSorted(d: Sample, s: seq<Sample>)
    ensures CountAbove(d, Canonical(s)) == CountAbove(d, s)
  {
    hide Less, Insert;
    if s != [] {
      CountAboveSorted(d, s[1..]);
      CountAboveInsert(d, s[0], Canonical(s[1..]));
    }
  }

  lemma {:induction false} CountAboveInsert(d: Sample, x: Sample, s: seq<Sample>)
    ensures CountAbove(d, Insert(Less, x, s)) == CountAbove(d, s) + if Less(d, x) then 1 else 0
  {
    hide Less;
    if s == [] || Less(x, s[0]) {
      assert ([x] + s)[1..] == s;
    } else {
      CountAboveInsert(d, x, s[1..]);
      assert ([s[0]] + Insert(Less, x, s[1..]))[1..] == Insert(Less, x, s[1..]);
    }
  }

  lemma AboveOnlyAfter(s: seq<Sample>, q: nat)
    requires Ascending(s) && q < |s|
    ensures CountAbove(s[q], s) <= |s| - 1 - q
  {
    hide Less, CountAbove;
    var d := s[q];
    forall i | 0 <= i <= q
      ensures !Less(d, s[i])
    {
      LessTotal(s[i], d);
    }
    assert s == s[..q + 1] + s[q + 1..];
    CountAboveConcat(d, s[..q + 1], s[q + 1..]);
    CountAboveBounds(d, s[..q + 1]);
    CountAboveBounds(d, s[q + 1..]);
  }

  /** A sample with count others above it is not among the last count. */
  lemma NotAmongLast(h: seq<Sample>, d: Sample, count: nat)
    requires DistinctIds(h) && CountAbove(d, h) >= count
    ensures d !in LastN(Canonical(h), count)
  {
    hide Less, Canonical, CountAbove, Ascending;
    var s := Canonical(h);
    CanonicalAscending(h);
    CountAboveSorted(d, h);
    CountAboveBounds(d, s);
    forall q | 0 <= q < |s| && s[q] == d
      ensures q < |s| - count
    {
      AboveOnlyAfter(s, q);
    }
    assert LastN(s, count) == s[|s| - count..];
  }

  lemma ManyAbove(h: seq<Sample>, b: nat, i: nat)
    requires OrderedBeyond(h, b) && i < |h| && i + b <= |h|
    ensures CountAbove(h[i], h) >= |h| - i - b
  {
    hide Less, CountAbove;
    assert h == h[..i + b] + h[i + b..];
    CountAboveConcat(h[i], h[..i + b], h[i + b..]);
    CountAboveBounds(h[i], h[i + b..]);
  }

  /** With room for the disorder, a count window selects the last count samples of the whole
      sorted history, whatever was evicted. */
  lemma CountWindowAgrees(p: WindowPolicy, h: seq<Sample>, b: nat)
    requires ValidPolicy(p) && p.kind.Count? && DistinctIds(h)
    requires b >= 1 && OrderedBeyond(h, b) && p.count + b - 1 <= p.capacity
    ensures Selected(p, LastN(h, p.capacity)) == LastN(Canonical(h), p.count)
  {
    hide Less, Canonical, CountAbove;
    forall i | 0 <= i < |h| - p.capacity
      ensures h[i] !in Selected(p, h)
    {
      ManyAbove(h, b, i);
      NotAmongLast(h, h[i], p.count);
    }
    BoundedAgreesIff(p, h);
  }

  ghost predicate AlwaysAgrees(p: WindowPolicy, b: nat)
    requires ValidPolicy(p)
  {
    forall h: seq<Sample> :: DistinctIds(h) && OneOwner(h) && OrderedBeyond(h, b) ==>
      Selected(p, AddedAll(p, h).samples) == Selected(p, h)
  }

  /** The bound is exact: it fails for some history as soon as the room is one short. */
  lemma CountWindowAgreesIff(p: WindowPolicy, b: nat)
    requires ValidPolicy(p) && p.kind.Count? && b >= 1
    ensures AlwaysAgrees(p, b) <==> p.count + b - 1 <= p.capacity
  {
    hide Selected, OrderedBeyond, DistinctIds, OneOwner, AddedAll, LastN;
    if p.count + b - 1 <= p.capacity {
      forall h: seq<Sample> | DistinctIds(h) && OneOwner(h) && OrderedBeyond(h, b)
        ensures Selected(p, AddedAll(p, h).samples) == Selected(p, h)
      {
        CountWindowAgrees(p, h, b);
        SelectedCount(p, h);
        RetainsLastArrivals(p, h);
      }
    } else {
      var h := Disagreement(p, b);
      RetainsLastArrivals(p, h);
    }
  }

  lemma SelectedCount(p: WindowPolicy, h: seq<Sample>)
    requires ValidPolicy(p) && p.kind.Count?
    ensures Selected(p, h) == LastN(Canonical(h), p.count)
  {
    hide Canonical;
  }

  const NOBODY: Provenance := Provenance(NIL_ID, 1, 1, 1, 0, 1, [])

  /** A sample observed at tick k, with k as its identity. */
  function Mark(k: nat): Sample
    requires k < 0x8000_0000
  {
    Sample(BigEndian(ID_BYTES, k), NIL_ID, NIL_ID, NIL_ID, 1, NOBODY, 0,
           TimePoint(NIL_ID, k), TimePoint(NIL_ID, 0), [], [], ZERO_DIGEST)
  }

  lemma MarksDiffer(j: nat, k: nat)
    requires j < k < 0x8000_0000
    ensures Less(Mark(j), Mark(k)) && !Less(Mark(k), Mark(j)) && Mark(j).id != Mark(k).id
  {
    hide Less;
    PowersOf256();
    Pow256Grows(4, ID_BYTES);
    ValueOfBigEndian(ID_BYTES, j);
    ValueOfBigEndian(ID_BYTES, k);
    EarlierTicks(Mark(j), Mark(k));
  }

  lemma EarlierTicks(a: Sample, b: Sample)
    requires a.observedAt.ticks < b.observedAt.ticks
    ensures Less(a, b) && !Less(b, a)
  {
  }

  lemma {:induction false} Pow256Grows(m: nat, n: nat)
    requires m <= n
    ensures Pow256(m) <= Pow256(n)
  {
    if m < n {
      Pow256Grows(m, n - 1);
    }
  }

  /** Ticks of the history that defeats a window with room for m late arrivals: the reading at
      tick m arrives first, those below and above it follow in order. */
  function LateTick(m: nat, i: nat): nat {
    if i == 0 then m else if i <= m then i - 1 else i
  }

  lemma Disagreement(p: WindowPolicy, b: nat) returns (h: seq<Sample>)
    requires ValidPolicy(p) && p.kind.Count? && p.count + b - 1 > p.capacity
    ensures DistinctIds(h) && OneOwner(h) && OrderedBeyond(h, b)
    ensures Selected(p, LastN(h, p.capacity)) != Selected(p, h)
  {
    hide Less, Selected, Mark;
    var m := p.capacity - p.count + 1;
    var n := p.capacity + 1;
    h := seq(n, i requires 0 <= i < n => Mark(LateTick(m, i)));
    LateHistory(m, n, h);
    LateSelected(p, m, h);
    BoundedAgreesIff(p, h);
    assert h[0] in Selected(p, h);
  }

  lemma LateHistory(m: nat, n: nat, h: seq<Sample>)
    requires n < 0x8000_0000 && m < n && |h| == n
    requires forall i :: 0 <= i < n ==> h[i] == Mark(LateTick(m, i))
    ensures DistinctIds(h) && OneOwner(h)
    ensures forall b :: b > m ==> OrderedBeyond(h, b)
    ensures Ascending(h[1..])
  {
    hide Less, Mark;
    forall i, j | 0 <= i < j < n
      ensures h[i].id != h[j].id && h[i].series == h[j].series && h[i].generation == h[j].generation
      ensures i > 0 || j > m ==> Less(h[i], h[j])
    {
      SameOwnerMarks(LateTick(m, i), LateTick(m, j));
      if LateTick(m, i) < LateTick(m, j) {
        MarksDiffer(LateTick(m, i), LateTick(m, j));
      } else {
        MarksDiffer(LateTick(m, j), LateTick(m, i));
      }
    }
  }

  lemma SameOwnerMarks(j: nat, k: nat)
    requires j < 0x8000_0000 && k < 0x8000_0000
    ensures Mark(j).series == Mark(k).series && Mark(j).generation == Mark(k).generation
  {
  }

  lemma AscendingIsCanonical(s: seq<Sample>)
    requires Ascending(s)
    ensures Canonical(s) == s
  {
    hide Less;
    SortingSorted(Less, s);
  }

  lemma LateSelected(p: WindowPolicy, m: nat, h: seq<Sample>)
    requires ValidPolicy(p) && p.kind.Count? && m == p.capacity - p.count + 1 && |h| == p.capacity + 1
    requires forall i :: 0 <= i < |h| ==> h[i] == Mark(LateTick(m, i))
    requires DistinctIds(h) && Ascending(h[1..])
    ensures h[0] in Selected(p, h)
  {
    hide Less, Mark, Canonical, Insert;
    var t := h[1..];
    assert h == [h[0]] + t;
    CanonicalOfLater(h[0], t);
    AscendingIsCanonical(t);
    var k := InsertSplits(h[0], t);
    var s := Canonical(h);
    if k < m {
      assert t[k] == Mark(k);
      MarksDiffer(k, m);
    }
    assert s[k] == h[0];
    InsideLast(s, k, p.count);
    SelectedCount(p, h);
  }

  // ---------------------------------------------------------------------------
  // Batches
  // ---------------------------------------------------------------------------

  function Flat(bs: seq<seq<Sample>>): seq<Sample> {
    if bs == [] then [] else Flat(bs[..|bs| - 1]) + bs[|bs| - 1]
  }

  /** Every sample of an earlier batch precedes every sample of a later one; nothing is said
      about the order inside a batch. */
  ghost predicate BatchesAscend(bs: seq<seq<Sample>>) {
    forall i, j, x, y :: 0 <= i < j < |bs| && x in bs[i] && y in bs[j] ==> Less(x, y)
  }

  lemma {:induction false} BatchesOrdered(bs: seq<seq<Sample>>, b: nat)
    requires BatchesAscend(bs) && forall i :: 0 <= i < |bs| ==> |bs[i]| <= b
    ensures OrderedBeyond(Flat(bs), b)
  {
    hide Less;
    if bs != [] {
      var n := |bs| - 1;
      BatchesOrdered(bs[..n], b);
      var earlier := Flat(bs[..n]);
      forall i, j | 0 <= i && i + b <= j < |Flat(bs)|
        ensures Less(Flat(bs)[i], Flat(bs)[j])
      {
        if j >= |earlier| {
          var k := InBatch(bs[..n], i);
          assert earlier[i] in bs[k];
        }
      }
    }
  }

  lemma {:induction false} InBatch(bs: seq<seq<Sample>>, i: nat) returns (k: nat)
    requires i < |Flat(bs)|
    ensures k < |bs| && Flat(bs)[i] in bs[k]
  {
    var n := |bs| - 1;
    if i < |Flat(bs[..n])| {
      k := InBatch(bs[..n], i);
    } else {
      k := n;
    }
  }

  /** The bounded window agrees with the unbounded history: samples delivered in batches of at
      most b, their keys increasing from batch to batch. */
  lemma BatchedWindowAgrees(p: WindowPolicy, bs: seq<seq<Sample>>, b: nat)
    requires ValidPolicy(p) && p.kind.Count? && b >= 1 && p.count + b - 1 <= p.capacity
    requires BatchesAscend(bs) && forall i :: 0 <= i < |bs| ==> |bs[i]| <= b
    requires DistinctIds(Flat(bs)) && OneOwner(Flat(bs))
    ensures Selected(p, AddedAll(p, Flat(bs)).samples) == LastN(Canonical(Flat(bs)), p.count)
  {
    hide Less, Canonical, Selected, AddedAll, Flat, DistinctIds, OneOwner, OrderedBeyond, BatchesAscend;
    BatchesOrdered(bs, b);
    RetainsLastArrivals(p, Flat(bs));
    CountWindowAgrees(p, Flat(bs), b);
  }

  // ---------------------------------------------------------------------------
  // Restart
  // ---------------------------------------------------------------------------

  /** Re-adding what a window retained to an empty window of the same policy, in any order,
      leaves its selection and its snapshot unchanged. */
  lemma RestoredSelectsSame(p: WindowPolicy, s: seq<Sample>, again: seq<Sample>)
    requires ValidPolicy(p) && DistinctIds(s) && OneOwner(s) && |s| <= p.capacity
    requires multiset(again) == multiset(s)
    ensures AddedAll(p, again).samples == again
    ensures Selected(p, AddedAll(p, again).samples) == Selected(p, s)
    ensures Canonical(AddedAll(p, again).samples) == Canonical(s)
  {
    hide Canonical, Less, AddedAll;
    assert |multiset(again)| == |multiset(s)|;
    DistinctOfSame(s, again);
    forall i | 0 <= i < |again|
      ensures again[i] in s
    {
      assert again[i] in multiset(s);
    }
    RetainsLastArrivals(p, again);
    CanonicalOfSame(s, again);
  }
}
