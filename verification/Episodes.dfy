/** Historical instability episodes (src/episode.cpp). */
module Episodes {
  import opened Errors
  import opened CanonicalBytes
  import opened Lists
  import opened Samples
  import opened RecordForms
  import opened Classification

  const MAX_EPISODES_PER_SERIES: nat := 4096

  datatype EpisodeKey = EpisodeKey(series: Id, generation: Id, policy: Id, window: Id)

  datatype CloseReason =
    | NotClosed | Recovered | GenerationChanged | EvidenceLost | PolicyChanged | WindowChanged | Superseded

  datatype Episode = Episode(
    id: Id, key: EpisodeKey, path: Id, ordinal: U64, peakLevel: Level, driver: MetricKey,
    openingValue: real, peakValue: real, openedAt: I64, closedAt: Option<I64>,
    observations: nat, breaches: nat, recoveries: nat, closeWindows: nat, closeReason: CloseReason)

  // A classification of one window, as episode tracking sees it.
  datatype Classified = Classified(
    key: EpisodeKey, path: Id, ordinal: U64, current: bool, closeWindows: nat, verdict: Verdict)

  // The digest behind identities, and the durable identity of each metric.
  datatype Naming = Naming(digest: Bytes -> Digest, metricId: MetricKey -> Id)

  function EpisodeTag(): Bytes { EncStr(Ascii("jitter.episode.v1")) }

  function EpisodeId(n: Naming, e: Episode): Id {
    IdOf(n.digest(EpisodeTag() + (e.key.series + (e.path + (e.key.generation + (EncU64(e.ordinal) +
      (EncI64(e.openedAt) + (e.key.policy + (e.key.window + (n.metricId(e.driver) + [e.driver])))))))))) 
  }

  function DriverKey(c: Classified): MetricKey {
    if c.verdict.driver.Some? then c.verdict.driver.value.metric else COUNT_METRIC
  }

  function DriverValue(c: Classified): real {
    if c.verdict.driver.Some? then c.verdict.driver.value.value else 0.0
  }

  predicate Asserts(c: Classified) {
    AssertsInstability(c.verdict.level)
  }

  /** The levels that count towards recovery. */
  predicate Recovers(c: Classified) {
    c.verdict.level.Stable? || c.verdict.level.Insufficient?
  }

  function ClosedEpisode(e: Episode, now: I64, reason: CloseReason): Episode {
    e.(closedAt := Some(if now < e.openedAt then e.openedAt else now), closeReason := reason)
  }

  function OpenedEpisode(n: Naming, c: Classified, now: I64): Episode {
    var e := Episode(NIL_ID, c.key, c.path, c.ordinal, c.verdict.level, DriverKey(c), DriverValue(c), DriverValue(c),
                     now, None, 1, 1, 0, 0, NotClosed);
    e.(id := EpisodeId(n, e))
  }

  function Extended(e: Episode, c: Classified): Episode {
    var peaked := if DriverValue(c) > e.peakValue then e.(peakValue := DriverValue(c), driver := DriverKey(c)) else e;
    peaked.(observations := e.observations + 1, breaches := e.breaches + 1, recoveries := 0,
            peakLevel := if c.verdict.level.Unstable? then Unstable else e.peakLevel)
  }

  // What one observation did.
  datatype Update = Update(slot: Option<Episode>, started: Option<Episode>, closed: Option<Episode>, extended: bool)

  /** One observation of the open episode of its key, if there is one. */
  function Observed(n: Naming, slot: Option<Episode>, c: Classified, now: I64): Update {
    if !c.current then
      match slot
      case None => Update(None, None, None, false)
      case Some(e) => Update(None, None, Some(ClosedEpisode(e, now, Superseded)), false)
    else if Asserts(c) then
      match slot
      case None => Update(Some(OpenedEpisode(n, c, now)), Some(OpenedEpisode(n, c, now)), None, false)
      case Some(e) => Update(Some(Extended(e, c)), None, None, true)
    else
      match slot
      case None => Update(None, None, None, false)
      case Some(e) =>
        var seen := e.(closeWindows := c.closeWindows, observations := e.observations + 1);
        if !Recovers(c) then Update(None, None, Some(ClosedEpisode(seen, now, EvidenceLost)), false)
        else
          var counted := seen.(recoveries := e.recoveries + 1);
          if counted.recoveries >= c.closeWindows
          then Update(None, None, Some(ClosedEpisode(counted, now, Recovered)), false)
          else Update(Some(counted), None, None, true)
  }

  function Slot(open: map<EpisodeKey, Episode>, key: EpisodeKey): Option<Episode> {
    if key in open then Some(open[key]) else None
  }

  function WithSlot(open: map<EpisodeKey, Episode>, key: EpisodeKey, slot: Option<Episode>): map<EpisodeKey, Episode> {
    match slot
    case Some(e) => open[key := e]
    case None => open - {key}
  }

  predicate OpenedBefore(a: Episode, b: Episode) {
    if a.openedAt != b.openedAt then a.openedAt < b.openedAt else LexLess(a.id, b.id)
  }

  function BucketOf(closed: map<Id, seq<Episode>>, series: Id): seq<Episode> {
    if series in closed then closed[series] else []
  }

  /** Why a key is retired, when it is: checked in this order. */
  function RetireReason(key: EpisodeKey, series: Id, generation: Id, policy: Id, window: Id): CloseReason {
    if key.series != series then NotClosed
    else if key.generation != generation then GenerationChanged
    else if key.policy != policy then PolicyChanged
    else if key.window != window then WindowChanged
    else NotClosed
  }

  /** e is the episode open under k, closed for this reason. */
  ghost predicate RetiredAs(open: map<EpisodeKey, Episode>, k: EpisodeKey, reason: CloseReason, now: I64, e: Episode) {
    k in open && !reason.NotClosed? && e == ClosedEpisode(open[k], now, reason)
  }

  // ---------------------------------------------------------------------------
  // What happens to one key
  // ---------------------------------------------------------------------------

  datatype Seen = Seen(what: Classified, at: I64)

  // The key is observed, or its open episode is retired from outside.
  datatype KeyEvent = Saw(seen: Seen) | Retired(reason: CloseReason, at: I64)

  /** The open episode of a key after everything that happened to it. */
  function SlotOf(n: Naming, es: seq<KeyEvent>): Option<Episode> {
    if es == [] then None
    else
      match es[|es| - 1]
      case Saw(c) => Observed(n, SlotOf(n, es[..|es| - 1]), c.what, c.at).slot
      case Retired(_, _) => None
  }

  function EventsOf(history: map<EpisodeKey, seq<KeyEvent>>, key: EpisodeKey): seq<KeyEvent> {
    if key in history then history[key] else []
  }

  /** Every key's open episode is what its events make it. */
  ghost predicate Follows(n: Naming, open: map<EpisodeKey, Episode>, history: map<EpisodeKey, seq<KeyEvent>>) {
    forall k: EpisodeKey :: Slot(open, k) == SlotOf(n, EventsOf(history, k))
  }

  ghost function Happened(history: map<EpisodeKey, seq<KeyEvent>>, key: EpisodeKey, e: KeyEvent)
    : map<EpisodeKey, seq<KeyEvent>>
  {
    history[key := EventsOf(history, key) + [e]]
  }

  lemma SawFollows(n: Naming, open: map<EpisodeKey, Episode>, history: map<EpisodeKey, seq<KeyEvent>>,
                   c: Classified, now: I64)
    requires Follows(n, open, history)
    ensures Follows(n, WithSlot(open, c.key, Observed(n, Slot(open, c.key), c, now).slot),
                    Happened(history, c.key, Saw(Seen(c, now))))
  {
    hide Observed;
    var es := EventsOf(history, c.key);
    assert (es + [Saw(Seen(c, now))])[..|es|] == es;
    var after := WithSlot(open, c.key, Observed(n, Slot(open, c.key), c, now).slot);
    assert Slot(after, c.key) == SlotOf(n, es + [Saw(Seen(c, now))]);
    forall k: EpisodeKey | k != c.key
      ensures Slot(after, k) == Slot(open, k)
    {
    }
  }

  lemma RetiredFollows(n: Naming, open: map<EpisodeKey, Episode>, history: map<EpisodeKey, seq<KeyEvent>>,
                       k: EpisodeKey, reason: CloseReason, now: I64)
    requires Follows(n, open, history)
    ensures Follows(n, open - {k}, Happened(history, k, Retired(reason, now)))
  {
    hide Observed;
    assert SlotOf(n, EventsOf(history, k) + [Retired(reason, now)]) == None;
    forall j: EpisodeKey | j != k
      ensures Slot(open - {k}, j) == Slot(open, j)
      ensures EventsOf(Happened(history, k, Retired(reason, now)), j) == EventsOf(history, j)
    {
    }
  }

  // ---------------------------------------------------------------------------
  // The log object
  // ---------------------------------------------------------------------------

  class EpisodeLog {
    const naming: Naming
    var open: map<EpisodeKey, Episode>
    var episodes: map<Id, seq<Episode>>
    var dropped: nat
    // Every episode closed so far, newest closing first.
    ghost var ever: map<Id, seq<Episode>>
    // Everything that happened to each key.
    ghost var history: map<EpisodeKey, seq<KeyEvent>>

    /** Per series, the retained closed episodes are the largest of all ever closed, in the order
        of opening time and identity. */
    ghost predicate Retains()
      reads this`episodes, this`ever
    {
      forall s: Id :: BucketOf(episodes, s) == LastN(SortBy(OpenedBefore, BucketOf(ever, s)), MAX_EPISODES_PER_SERIES)
    }

    ghost predicate Valid()
      reads this
    {
      Retains() && Follows(naming, open, history)
    }

    constructor (naming: Naming)
      ensures Valid() && this.naming == naming && open == map[] && ever == map[] && history == map[] && dropped == 0
    {
      this.naming := naming;
      open, episodes, ever, history, dropped := map[], map[], map[], map[], 0;
    }

    method InsertClosed(e: Episode)
      requires Retains()
      modifies this`episodes, this`dropped, this`ever
      ensures Retains()
      ensures ever == old(ever)[e.key.series := [e] + BucketOf(old(ever), e.key.series)]
      ensures dropped + |BucketOf(episodes, e.key.series)| == old(dropped) + |BucketOf(old(episodes), e.key.series)| + 1
    {
      hide SortBy, OpenedBefore, Insert, LastN;
      var series := e.key.series;
      assert BucketOf(episodes, series) == LastN(SortBy(OpenedBefore, BucketOf(ever, series)), MAX_EPISODES_PER_SERIES);
      var bucket := Insert(OpenedBefore, e, BucketOf(episodes, series));
      InsertMembers(OpenedBefore, e, BucketOf(episodes, series));
      var size := |bucket|;
      bucket := Trim(bucket);
      dropped := dropped + size - |bucket|;
      ghost var before := BucketOf(ever, series);
      KeepsLargest(e, before);
      episodes := episodes[series := bucket];
      ever := ever[series := [e] + before];
      assert forall s: Id :: s != series ==>
        BucketOf(episodes, s) == BucketOf(old(episodes), s) && BucketOf(ever, s) == BucketOf(old(ever), s);
    }

    method Trim(all: seq<Episode>) returns (bucket: seq<Episode>)
      ensures bucket == LastN(all, MAX_EPISODES_PER_SERIES)
    {
      bucket := all;
      ghost var gone := 0;
      while |bucket| > MAX_EPISODES_PER_SERIES
        invariant gone <= |all| && bucket == all[gone..]
        invariant gone > 0 ==> |bucket| >= MAX_EPISODES_PER_SERIES
        decreases |bucket|
      {
        bucket := bucket[1..];
        gone := gone + 1;
      }
    }

    method Observe(c: Classified, now: I64) returns (u: Update)
      requires Valid()
      modifies this
      ensures Valid()
      ensures u == Observed(naming, Slot(old(open), c.key), c, now)
      ensures open == WithSlot(old(open), c.key, u.slot)
      ensures history == Happened(old(history), c.key, Saw(Seen(c, now)))
      ensures ever == if u.closed.Some? then WithClosed(old(ever), u.closed.value) else old(ever)
    {
      hide EpisodeId, Follows, BucketOf, LastN, SortBy, OpenedBefore, SlotOf, Asserts, Recovers, DriverValue,
        DriverKey, ClosedEpisode, OpenedEpisode, Happened, Retains;
      var slot := Slot(open, c.key);
      SawFollows(naming, open, history, c, now);
      history := Happened(history, c.key, Saw(Seen(c, now)));
      if !c.current {
        if slot.Some? {
          var closed := ClosedEpisode(slot.value, now, Superseded);
          Settle(c.key, closed);
          return Update(None, None, Some(closed), false);
        }
        assert open - {c.key} == open;
        return Update(None, None, None, false);
      }
      if Asserts(c) {
        if slot.None? {
          var e := OpenedEpisode(naming, c, now);
          open := open[c.key := e];
          return Update(Some(e), Some(e), None, false);
        }
        var e := slot.value;
        if DriverValue(c) > e.peakValue {
          e := e.(peakValue := DriverValue(c), driver := DriverKey(c));
        }
        e := e.(observations := e.observations + 1, breaches := e.breaches + 1, recoveries := 0);
        if c.verdict.level.Unstable? {
          e := e.(peakLevel := Unstable);
        }
        open := open[c.key := e];
        return Update(Some(e), None, None, true);
      }
      if slot.None? {
        assert open - {c.key} == open;
        return Update(None, None, None, false);
      }
      var e := slot.value.(closeWindows := c.closeWindows, observations := slot.value.observations + 1);
      if !Recovers(c) {
        var closed := ClosedEpisode(e, now, EvidenceLost);
        Settle(c.key, closed);
        return Update(None, None, Some(closed), false);
      }
      e := e.(recoveries := e.recoveries + 1);
      if e.recoveries >= c.closeWindows {
        var closed := ClosedEpisode(e, now, Recovered);
        Settle(c.key, closed);
        return Update(None, None, Some(closed), false);
      }
      open := open[c.key := e];
      return Update(Some(e), None, None, true);
    }

    // insert_closed followed by open_.erase.
    method Settle(key: EpisodeKey, e: Episode)
      requires Retains()
      modifies this`open, this`episodes, this`dropped, this`ever
      ensures Retains()
      ensures open == old(open) - {key} && ever == WithClosed(old(ever), e)
    {
      hide LastN, SortBy, OpenedBefore;
      InsertClosed(e);
      open := open - {key};
    }

    method Retire(series: Id, generation: Id, policy: Id, window: Id, now: I64) returns (closedNow: seq<Episode>)
      requires Valid()
      modifies this
      ensures Valid()
      ensures open == map k | k in old(open)
        && RetireReason(k, series, generation, policy, window).NotClosed? :: old(open)[k]
      ensures |closedNow| + |open| == |old(open)|
      ensures forall e :: e in closedNow ==> exists k ::
        RetiredAs(old(open), k, RetireReason(k, series, generation, policy, window), now, e)
      ensures RetiredIn(old(history), history, old(open), {}, series, generation, policy, window, now)
    {
      hide BucketOf, LastN, SortBy, OpenedBefore, ClosedEpisode, RetireReason, Follows, SlotOf, RetiredIn, Happened,
        Retains;
      RetiresNothing(history, open, series, generation, policy, window, now);
      closedNow := [];
      var pending := open.Keys;
      while pending != {}
        invariant Valid() && pending <= old(open).Keys
        invariant open.Keys <= old(open).Keys && forall k :: k in open ==> open[k] == old(open)[k]
        invariant forall k :: k in pending ==> k in open
        invariant forall k :: k in old(open) && k !in pending ==>
          (k in open <==> RetireReason(k, series, generation, policy, window).NotClosed?)
        invariant RetiredIn(old(history), history, old(open), pending, series, generation, policy, window, now)
        invariant |closedNow| + |open| == |old(open)|
        invariant forall e :: e in closedNow ==> exists k ::
          RetiredAs(old(open), k, RetireReason(k, series, generation, policy, window), now, e)
        decreases |pending|
      {
        var k :| k in pending;
        RetiresNext(old(history), history, old(open), pending, k, series, generation, policy, window, now);
        pending := pending - {k};
        var reason := RetireReason(k, series, generation, policy, window);
        if !reason.NotClosed? {
          SmallerMap(open, k);
          var e := RetireOne(k, reason, now);
          assert RetiredAs(old(open), k, reason, now, e);
          closedNow := closedNow + [e];
        }
      }
    }

    // close_episode, insert_closed and erase for one key.
    method RetireOne(k: EpisodeKey, reason: CloseReason, now: I64) returns (e: Episode)
      requires Valid() && k in open
      modifies this
      ensures Valid()
      ensures e == ClosedEpisode(old(open)[k], now, reason)
      ensures open == old(open) - {k} && history == Happened(old(history), k, Retired(reason, now))
    {
      hide BucketOf, LastN, SortBy, OpenedBefore, ClosedEpisode, Follows, SlotOf, Happened;
      e := ClosedEpisode(open[k], now, reason);
      RetiredFollows(naming, open, history, k, reason, now);
      history := Happened(history, k, Retired(reason, now));
      Settle(k, e);
    }

    // An episode that was open when it was saved cannot be confirmed, so it is closed.
    method Import(e: Episode, now: I64) returns (status: Status)
      requires Valid()
      modifies this`episodes, this`dropped, this`ever
      ensures Valid()
      ensures status ==
        if e.key.series == NIL_ID || e.key.generation == NIL_ID then Failure(InvalidArgument) else Success
      ensures ever == if status.Success?
        then WithClosed(old(ever), if e.closedAt.None? then ClosedEpisode(e, now, EvidenceLost) else e)
        else old(ever)
    {
      if e.key.series == NIL_ID || e.key.generation == NIL_ID {
        return Failure(InvalidArgument);
      }
      InsertClosed(if e.closedAt.None? then ClosedEpisode(e, now, EvidenceLost) else e);
      status := Success;
    }
  }

  /** Each key open before, unless it is still pending, has been retired for its reason, if it has
      one; nothing else happened to any key. */
  ghost predicate RetiredIn(
    was: map<EpisodeKey, seq<KeyEvent>>, history: map<EpisodeKey, seq<KeyEvent>>, open: map<EpisodeKey, Episode>,
    pending: set<EpisodeKey>, series: Id, generation: Id, policy: Id, window: Id, now: I64)
  {
    forall k: EpisodeKey ::
      var reason := RetireReason(k, series, generation, policy, window);
      EventsOf(history, k) == (EventsOf(was, k) +
        if k in open && k !in pending && !reason.NotClosed? then [Retired(reason, now)] else [])
  }

  lemma RetiresNothing(history: map<EpisodeKey, seq<KeyEvent>>, open: map<EpisodeKey, Episode>,
                       series: Id, generation: Id, policy: Id, window: Id, now: I64)
    ensures RetiredIn(history, history, open, open.Keys, series, generation, policy, window, now)
  {
    hide RetireReason;
  }

  lemma RetiresNext(
    was: map<EpisodeKey, seq<KeyEvent>>, history: map<EpisodeKey, seq<KeyEvent>>, open: map<EpisodeKey, Episode>,
    pending: set<EpisodeKey>, k: EpisodeKey, series: Id, generation: Id, policy: Id, window: Id, now: I64)
    requires RetiredIn(was, history, open, pending, series, generation, policy, window, now)
    requires k in pending && k in open
    ensures var reason := RetireReason(k, series, generation, policy, window);
      RetiredIn(was, if reason.NotClosed? then history else Happened(history, k, Retired(reason, now)),
                open, pending - {k}, series, generation, policy, window, now)
  {
    hide RetireReason;
    assert EventsOf(history, k) == EventsOf(was, k);
  }

  ghost function WithClosed(ever: map<Id, seq<Episode>>, e: Episode): map<Id, seq<Episode>> {
    ever[e.key.series := [e] + BucketOf(ever, e.key.series)]
  }

  lemma SmallerMap(m: map<EpisodeKey, Episode>, k: EpisodeKey)
    requires k in m
    ensures |m - {k}| == |m| - 1
  {
    assert (m - {k}).Keys == m.Keys - {k};
    assert |m.Keys - {k}| == |m.Keys| - 1;
  }

  lemma OpeningOrder()
    ensures StrictOrder(OpenedBefore)
  {
    forall a: Episode, b: Episode | OpenedBefore(a, b)
      ensures !OpenedBefore(b, a)
    {
      LexTotal(a.id, b.id);
    }
    forall a: Episode, b: Episode, c: Episode | OpenedBefore(a, b) && !OpenedBefore(c, b)
      ensures OpenedBefore(a, c)
    {
      LexTotal(a.id, b.id);
      LexTotal(b.id, c.id);
      if LexLess(a.id, b.id) && LexLess(b.id, c.id) {
        LexTransitive(a.id, b.id, c.id);
      }
    }
  }

  /** Inserting into the bounded bucket and evicting the earliest keeps the largest of all. */
  lemma KeepsLargest(e: Episode, before: seq<Episode>)
    ensures LastN(Insert(OpenedBefore, e, LastN(SortBy(OpenedBefore, before), MAX_EPISODES_PER_SERIES)),
                  MAX_EPISODES_PER_SERIES)
      == LastN(SortBy(OpenedBefore, [e] + before), MAX_EPISODES_PER_SERIES)
  {
    hide OpenedBefore, Insert;
    OpeningOrder();
    SortSorted(OpenedBefore, before);
    InsertIntoLargest(OpenedBefore, e, SortBy(OpenedBefore, before), MAX_EPISODES_PER_SERIES);
    assert ([e] + before)[1..] == before;
  }

  predicate InOpeningOrder(bucket: seq<Episode>) {
    forall i, j :: 0 <= i < j < |bucket| ==>
      bucket[i].openedAt < bucket[j].openedAt
      || (bucket[i].openedAt == bucket[j].openedAt && !LexLess(bucket[j].id, bucket[i].id))
  }

  /** What the retained episodes of a series are, of all that were ever closed: they stand in the
      order of their opening, and if any is missing the bucket is full and each one missing was
      opened no later than each one retained. */
  lemma RetainsLatestOpened(all: seq<Episode>) returns (gone: seq<Episode>)
    ensures var bucket := LastN(SortBy(OpenedBefore, all), MAX_EPISODES_PER_SERIES);
      && InOpeningOrder(bucket) && NoneLater(gone, bucket)
      && multiset(gone + bucket) == multiset(all)
      && |bucket| == (if |all| < MAX_EPISODES_PER_SERIES then |all| else MAX_EPISODES_PER_SERIES)
  {
    OpeningOrder();
    SortSorted(OpenedBefore, all);
    SortMembers(OpenedBefore, all);
    hide SortBy, OpenedBefore, InOpeningOrder, StrictOrder, NoneLater;
    var sorted := SortBy(OpenedBefore, all);
    var bucket := LastN(sorted, MAX_EPISODES_PER_SERIES);
    gone := sorted[..|sorted| - |bucket|];
    assert gone + bucket == sorted;
    InstantsAscend(sorted, |gone|);
  }

  predicate NoneLater(gone: seq<Episode>, bucket: seq<Episode>) {
    forall i, j :: 0 <= i < |gone| && 0 <= j < |bucket| ==> gone[i].openedAt <= bucket[j].openedAt
  }

  lemma InstantsAscend(sorted: seq<Episode>, k: nat)
    requires Sorted(OpenedBefore, sorted) && k <= |sorted|
    ensures InOpeningOrder(sorted[k..])
    ensures NoneLater(sorted[..k], sorted[k..])
  {
    var gone, bucket := sorted[..k], sorted[k..];
    hide LexLess;
    forall i, j | 0 <= i < j < |bucket|
      ensures !OpenedBefore(bucket[j], bucket[i])
    {
      assert !OpenedBefore(sorted[k + j], sorted[k + i]);
    }
    forall i, j | 0 <= i < |gone| && 0 <= j < |bucket|
      ensures gone[i].openedAt <= bucket[j].openedAt
    {
      assert !OpenedBefore(sorted[k + j], sorted[i]);
    }
  }

  /** What a retirement leaves open of its series is one key at most, the one it names, and each one
      it closes is closed for the first of generation, policy and window that it does not share. */
  lemma RetireSparesOne(key: EpisodeKey, series: Id, generation: Id, policy: Id, window: Id)
    ensures var reason := RetireReason(key, series, generation, policy, window);
      && (reason == NotClosed <==> key.series != series || key == EpisodeKey(series, generation, policy, window))
      && (reason == GenerationChanged <==> key.series == series && key.generation != generation)
      && (reason == WindowChanged ==> key == EpisodeKey(series, generation, policy, key.window))
      && (reason == PolicyChanged ==> key.policy != policy && key.generation == generation)
      && reason in {NotClosed, GenerationChanged, PolicyChanged, WindowChanged}
  {
  }

  /** What the identity covers. */
  function IdentityOf(n: Naming, e: Episode): Bytes {
    e.key.series + (e.path + (e.key.generation + (EncU64(e.ordinal) +
    (EncI64(e.openedAt) + (e.key.policy + (e.key.window + (n.metricId(e.driver) + [e.driver])))))))
  }

  /** Two episodes of one identity are of the same series, path, generation, policy and window,
      were opened at the same instant and named the same driver, or two inputs with one identity
      are at hand. */
  lemma SameIdSameOpening(n: Naming, a: Episode, b: Episode) returns (x: Bytes, y: Bytes)
    requires EpisodeId(n, a) == EpisodeId(n, b)
    ensures (a.key == b.key && a.path == b.path && a.ordinal == b.ordinal && a.openedAt == b.openedAt
             && a.driver == b.driver)
      || (x != y && IdOf(n.digest(x)) == IdOf(n.digest(y)))
  {
    x, y := EpisodeTag() + IdentityOf(n, a), EpisodeTag() + IdentityOf(n, b);
    hide EpisodeTag, IdOf;
    if x == y {
      assert IdentityOf(n, a) == x[|EpisodeTag()|..] == y[|EpisodeTag()|..] == IdentityOf(n, b);
      IdentityInjective(n, a, b);
    }
  }

  lemma IdentityInjective(n: Naming, a: Episode, b: Episode)
    requires IdentityOf(n, a) == IdentityOf(n, b)
    ensures a.key == b.key && a.path == b.path && a.ordinal == b.ordinal && a.openedAt == b.openedAt
    ensures a.driver == b.driver
  {
    hide EncU64, EncI64;
    var a8, b8 := n.metricId(a.driver) + [a.driver], n.metricId(b.driver) + [b.driver];
    var a7, b7 := a.key.window + a8, b.key.window + b8;
    var a6, b6 := a.key.policy + a7, b.key.policy + b7;
    var a5, b5 := EncI64(a.openedAt) + a6, EncI64(b.openedAt) + b6;
    var a4, b4 := EncU64(a.ordinal) + a5, EncU64(b.ordinal) + b5;
    var a3, b3 := a.key.generation + a4, b.key.generation + b4;
    SameFront(a.key.series, a.path + a3, b.key.series, b.path + b3);
    SameFront(a.path, a3, b.path, b3);
    SameFront(a.key.generation, a4, b.key.generation, b4);
    NumbersBack(a.ordinal, a5, a.openedAt, a6);
    NumbersBack(b.ordinal, b5, b.openedAt, b6);
    SameFront(a.key.policy, a7, b.key.policy, b7);
    SameFront(a.key.window, a8, b.key.window, b8);
    SameFront(n.metricId(a.driver), [a.driver], n.metricId(b.driver), [b.driver]);
  }

  lemma SameFront(p: Bytes, c: Bytes, q: Bytes, d: Bytes)
    requires |p| == |q| && p + c == q + d
    ensures p == q && c == d
  {
    assert p == (p + c)[..|p|] && q == (q + d)[..|q|];
    assert c == (p + c)[|p|..] && d == (q + d)[|q|..];
  }

  lemma NumbersBack(u: U64, r: Bytes, v: I64, s: Bytes)
    ensures DecU64(EncU64(u) + r) == Parsed(u, r) && DecI64(EncI64(v) + s) == Parsed(v, s)
  {
    U64RoundTrip(u, r);
    I64RoundTrip(v, s);
  }

  // ---------------------------------------------------------------------------
  // The run of one key
  // ---------------------------------------------------------------------------

  /** The observations of a key since its episode was last retired. */
  function SinceRetired(es: seq<KeyEvent>): seq<Seen> {
    if es == [] then []
    else
      match es[|es| - 1]
      case Saw(c) => SinceRetired(es[..|es| - 1]) + [c]
      case Retired(_, _) => []
  }

  /** A retirement starts the key anew: only the observations since then matter. */
  lemma {:induction false} RetiringStartsAnew(n: Naming, es: seq<KeyEvent>)
    ensures SlotOf(n, es) == SlotAfter(n, SinceRetired(es))
  {
    hide Observed;
    if es != [] && es[|es| - 1].Saw? {
      var front := es[..|es| - 1];
      RetiringStartsAnew(n, front);
      assert (SinceRetired(front) + [es[|es| - 1].seen])[..|SinceRetired(front)|] == SinceRetired(front);
    }
  }

  /** The open episode of a key after observations with no retirement among them. */
  function SlotAfter(n: Naming, cs: seq<Seen>): Option<Episode> {
    if cs == [] then None
    else Observed(n, SlotAfter(n, cs[..|cs| - 1]), cs[|cs| - 1].what, cs[|cs| - 1].at).slot
  }

  /** How many observations since the last one that asserted instability. */
  function Trailing(cs: seq<Seen>): nat {
    if cs == [] || Asserts(cs[|cs| - 1].what) then 0 else 1 + Trailing(cs[..|cs| - 1])
  }

  function Breaching(cs: seq<Seen>): nat {
    if cs == [] then 0 else Breaching(cs[..|cs| - 1]) + if Asserts(cs[|cs| - 1].what) then 1 else 0
  }

  /** How many recoveries in a row the last observation that asserted nothing asked for; none yet is 0. */
  function Asked(cs: seq<Seen>): nat {
    if cs == [] then 0
    else if !Asserts(cs[|cs| - 1].what) then cs[|cs| - 1].what.closeWindows
    else Asked(cs[..|cs| - 1])
  }

  /** e names what this observation was about, and the value that opened it. */
  predicate OpenedBy(n: Naming, c: Seen, e: Episode) {
    && e.openedAt == c.at && e.openingValue == DriverValue(c.what)
    && e.key == c.what.key && e.path == c.what.path && e.ordinal == c.what.ordinal
    && e.id == OpenedEpisode(n, c.what, c.at).id
  }

  lemma KeepsOpening(n: Naming, s: Seen, e: Episode, c: Seen)
    requires OpenedBy(n, s, e) && Observed(n, Some(e), c.what, c.at).slot.Some?
    ensures OpenedBy(n, s, Observed(n, Some(e), c.what, c.at).slot.value)
  {
    hide OpenedEpisode;
  }

  /** e has been open since observation j. */
  ghost predicate OpenSince(n: Naming, cs: seq<Seen>, j: nat, e: Episode) {
    && j < |cs| && OpenedBy(n, cs[j], e) && Asserts(cs[j].what)
    && (forall i :: j <= i < |cs| ==> cs[i].what.current && (Asserts(cs[i].what) || Recovers(cs[i].what)))
    && e.closedAt == None && e.closeReason == NotClosed
    && e.observations == |cs| - j
    && e.breaches == Breaching(cs[j..])
    && e.recoveries == Trailing(cs)
    && e.closeWindows == Asked(cs[j..])
  }

  ghost predicate FirstPeak(cs: seq<Seen>, j: nat, m: nat, peak: real, driver: MetricKey)
    requires j <= m < |cs|
  {
    && Asserts(cs[m].what) && peak == DriverValue(cs[m].what) && driver == DriverKey(cs[m].what)
    && forall i :: j <= i < m && Asserts(cs[i].what) ==> DriverValue(cs[i].what) < peak
  }

  ghost predicate PeakReached(cs: seq<Seen>, j: nat, peak: real, driver: MetricKey) {
    && (exists m :: j <= m < |cs| && FirstPeak(cs, j, m, peak, driver))
    && (forall i :: j <= i < |cs| && Asserts(cs[i].what) ==> DriverValue(cs[i].what) <= peak)
  }

  ghost predicate PeakLevel(cs: seq<Seen>, j: nat, level: Level) {
    && AssertsInstability(level)
    && (level.Unstable? <==> exists i :: j <= i < |cs| && cs[i].what.verdict.level.Unstable?)
  }

  /** The peak of e is the largest driver value of the breaching observations since j, with the
      driver that reached it first; its level is unstable if one of them was. */
  ghost predicate PeakSince(cs: seq<Seen>, j: nat, e: Episode) {
    PeakReached(cs, j, e.peakValue, e.driver) && PeakLevel(cs, j, e.peakLevel)
  }

  ghost predicate SameClosing(cs: seq<Seen>, k: nat) {
    forall i :: 0 <= i < |cs| ==> cs[i].what.closeWindows == k
  }

  /** What an open episode says about everything that happened to its key: it was opened by an
      observation j, after the last retirement, and tells the story of the observations since. */
  lemma EpisodeMeaning(n: Naming, es: seq<KeyEvent>, k: nat) returns (j: nat)
    requires SameClosing(SinceRetired(es), k) && k >= 1 && SlotOf(n, es).Some?
    ensures var e := SlotOf(n, es).value; var cs := SinceRetired(es);
      && OpenSince(n, cs, j, e) && PeakSince(cs, j, e)
      && e.recoveries < k
      && SlotAfter(n, cs[..j]) == None
  {
    hide OpenSince, PeakSince, SlotOf, SinceRetired, SlotAfter, SameClosing;
    RetiringStartsAnew(n, es);
    j := ObservedMeaning(n, SinceRetired(es), k);
  }

  lemma {:induction false} ObservedMeaning(n: Naming, cs: seq<Seen>, k: nat) returns (j: nat)
    requires SameClosing(cs, k) && k >= 1 && SlotAfter(n, cs).Some?
    ensures var e := SlotAfter(n, cs).value;
      && OpenSince(n, cs, j, e) && PeakSince(cs, j, e)
      && e.recoveries < k
      && SlotAfter(n, cs[..j]) == None
  {
    hide OpenSince, PeakSince, OpenedEpisode, Extended;
    var last := |cs| - 1;
    var before := cs[..last];
    if SlotAfter(n, before).None? {
      j := last;
      OpensNow(n, cs);
    } else {
      j := ObservedMeaning(n, before, k);
      assert cs[..j] == before[..j] by {
        OpenInside(n, before, j, SlotAfter(n, before).value);
      }
      StaysOpen(n, before, j, SlotAfter(n, before).value, cs[last], k);
      assert cs == before + [cs[last]];
    }
  }

  lemma OpenInside(n: Naming, cs: seq<Seen>, j: nat, e: Episode)
    requires OpenSince(n, cs, j, e)
    ensures j < |cs|
  {
  }

  lemma OpensNow(n: Naming, cs: seq<Seen>)
    requires cs != [] && SlotAfter(n, cs[..|cs| - 1]).None? && SlotAfter(n, cs).Some?
    ensures OpenSince(n, cs, |cs| - 1, SlotAfter(n, cs).value) && PeakSince(cs, |cs| - 1, SlotAfter(n, cs).value)
    ensures SlotAfter(n, cs).value.recoveries == 0
  {
    hide EpisodeId;
    var last := |cs| - 1;
    var c := cs[last];
    assert SlotAfter(n, cs) == Some(OpenedEpisode(n, c.what, c.at));
    assert OpenedBy(n, c, OpenedEpisode(n, c.what, c.at));
    hide OpenedBy, PeakSince;
    assert cs[last..] == [c];
    assert [c][..0] == [];
    assert Breaching([c]) == 1;
    assert Asked([c]) == 0;
    FirstIsPeak(cs, OpenedEpisode(n, c.what, c.at));
  }

  lemma FirstIsPeak(cs: seq<Seen>, e: Episode)
    requires cs != [] && Asserts(cs[|cs| - 1].what)
    requires e.peakValue == DriverValue(cs[|cs| - 1].what) && e.driver == DriverKey(cs[|cs| - 1].what)
    requires e.peakLevel == cs[|cs| - 1].what.verdict.level
    ensures PeakSince(cs, |cs| - 1, e)
  {
    hide DriverValue, DriverKey;
    assert FirstPeak(cs, |cs| - 1, |cs| - 1, e.peakValue, e.driver);
  }

  lemma StaysOpen(n: Naming, cs: seq<Seen>, j: nat, e: Episode, c: Seen, k: nat)
    requires OpenSince(n, cs, j, e) && PeakSince(cs, j, e) && c.what.closeWindows == k
    requires Observed(n, Some(e), c.what, c.at).slot.Some?
    ensures var e' := Observed(n, Some(e), c.what, c.at).slot.value;
      && OpenSince(n, cs + [c], j, e') && PeakSince(cs + [c], j, e')
      && (e.recoveries < k && k >= 1 ==> e'.recoveries < k)
  {
    hide EpisodeId, OpenSince, PeakSince;
    OpenInside(n, cs, j, e);
    StillSince(n, cs, j, e, c);
    PeakMoves(n, cs, j, e, c);
  }

  lemma StillSince(n: Naming, cs: seq<Seen>, j: nat, e: Episode, c: Seen)
    requires OpenSince(n, cs, j, e) && Observed(n, Some(e), c.what, c.at).slot.Some?
    ensures OpenSince(n, cs + [c], j, Observed(n, Some(e), c.what, c.at).slot.value)
  {
    hide EpisodeId, OpenedBy, OpenedEpisode;
    KeepsOpening(n, cs[j], e, c);
    var all := cs + [c];
    assert all[..|cs|] == cs;
    assert all[j..] == cs[j..] + [c];
    assert all[j..][..|cs| - j] == cs[j..];
    assert forall i :: 0 <= i < |cs| ==> all[i] == cs[i];
  }

  lemma PeakMoves(n: Naming, cs: seq<Seen>, j: nat, e: Episode, c: Seen)
    requires j < |cs| && PeakSince(cs, j, e) && Observed(n, Some(e), c.what, c.at).slot.Some?
    ensures PeakSince(cs + [c], j, Observed(n, Some(e), c.what, c.at).slot.value)
  {
    hide EpisodeId, PeakSince;
    if Asserts(c.what) {
      PeakExtended(cs, j, e, c);
    } else {
      PeakKept(cs, j, e, c, Observed(n, Some(e), c.what, c.at).slot.value);
    }
  }

  lemma PeakExtended(cs: seq<Seen>, j: nat, e: Episode, c: Seen)
    requires j < |cs| && PeakSince(cs, j, e) && Asserts(c.what)
    ensures PeakSince(cs + [c], j, Extended(e, c.what))
  {
    hide PeakReached, PeakLevel;
    assert PeakReached(cs + [c], j, Extended(e, c.what).peakValue, Extended(e, c.what).driver) by {
      if DriverValue(c.what) > e.peakValue {
        NewPeak(cs, j, e.peakValue, e.driver, c);
      } else {
        OldPeak(cs, j, e.peakValue, e.driver, c);
      }
    }
    PeakLevelMoves(cs, j, e.peakLevel, c);
  }

  lemma PeakKept(cs: seq<Seen>, j: nat, e: Episode, c: Seen, e': Episode)
    requires j < |cs| && PeakSince(cs, j, e) && !Asserts(c.what)
    requires e'.peakValue == e.peakValue && e'.driver == e.driver && e'.peakLevel == e.peakLevel
    ensures PeakSince(cs + [c], j, e')
  {
    hide PeakReached, PeakLevel;
    OldPeak(cs, j, e.peakValue, e.driver, c);
    PeakLevelMoves(cs, j, e.peakLevel, c);
  }

  lemma NewPeak(cs: seq<Seen>, j: nat, peak: real, driver: MetricKey, c: Seen)
    requires j < |cs| && PeakReached(cs, j, peak, driver) && Asserts(c.what) && DriverValue(c.what) > peak
    ensures PeakReached(cs + [c], j, DriverValue(c.what), DriverKey(c.what))
  {
    hide Asserts, DriverValue, DriverKey;
    var all := cs + [c];
    assert all[|cs|] == c;
    assert forall i :: 0 <= i < |cs| ==> all[i] == cs[i];
    assert FirstPeak(all, j, |cs|, DriverValue(c.what), DriverKey(c.what));
  }

  lemma OldPeak(cs: seq<Seen>, j: nat, peak: real, driver: MetricKey, c: Seen)
    requires j < |cs| && PeakReached(cs, j, peak, driver) && (Asserts(c.what) ==> DriverValue(c.what) <= peak)
    ensures PeakReached(cs + [c], j, peak, driver)
  {
    hide Asserts, DriverValue, DriverKey;
    var all := cs + [c];
    assert forall i :: 0 <= i < |cs| ==> all[i] == cs[i];
    var m :| j <= m < |cs| && FirstPeak(cs, j, m, peak, driver);
    assert FirstPeak(all, j, m, peak, driver);
  }

  lemma PeakLevelMoves(cs: seq<Seen>, j: nat, level: Level, c: Seen)
    requires j < |cs| && PeakLevel(cs, j, level)
    ensures PeakLevel(cs + [c], j, if c.what.verdict.level.Unstable? then Unstable else level)
  {
    var all := cs + [c];
    assert all[|cs|] == c;
    assert forall i :: 0 <= i < |cs| ==> all[i] == cs[i];
    if level.Unstable? {
      var i :| j <= i < |cs| && cs[i].what.verdict.level.Unstable?;
      assert all[i].what.verdict.level.Unstable?;
    }
  }

  /** The instant is the later of the two. */
  predicate LaterOf(a: I64, b: I64, instant: Option<I64>) {
    instant.Some? && a <= instant.value && b <= instant.value && (instant.value == a || instant.value == b)
  }

  /** Whatever closes an episode, it closes at the later of its opening and the instant given, for the
      reason given, and nothing else about it changes. */
  lemma ClosesLater(e: Episode, now: I64, reason: CloseReason)
    ensures var d := ClosedEpisode(e, now, reason);
      && LaterOf(e.openedAt, now, d.closedAt) && d.closeReason == reason
      && d.(closedAt := e.closedAt, closeReason := e.closeReason) == e
  {
  }

  /** What a closed episode records: it was opened by an observation j and closed by this one, at the later
      of the two instants, and counts every observation from j to this one, this one only if
      it was of the current generation, and of these the ones that asserted instability. */
  lemma ClosedMeaning(n: Naming, es: seq<KeyEvent>, c: Seen, k: nat) returns (j: nat)
    requires SameClosing(SinceRetired(es), k) && k >= 1 && SlotOf(n, es).Some?
    requires Observed(n, SlotOf(n, es), c.what, c.at).closed.Some?
    ensures var d := Observed(n, SlotOf(n, es), c.what, c.at).closed.value; var cs := SinceRetired(es);
      && j < |cs| && SlotAfter(n, cs[..j]) == None
      && d.key == cs[j].what.key && d.path == cs[j].what.path && d.ordinal == cs[j].what.ordinal
      && d.id == OpenedEpisode(n, cs[j].what, cs[j].at).id
      && d.openedAt == cs[j].at && LaterOf(cs[j].at, c.at, d.closedAt)
      && d.observations == |cs| - j + (if c.what.current then 1 else 0)
      && d.breaches == Breaching(cs[j..]) && PeakSince(cs, j, d)
  {
    hide SlotOf, SinceRetired, SlotAfter, SameClosing, OpenedEpisode, PeakLevel, PeakReached, Breaching, Trailing;
    j := EpisodeMeaning(n, es, k);
  }

  /** An open episode closes as recovered exactly at the k-th consecutive recovering observation
      after its last breach. */
  lemma RecoversAtKth(n: Naming, es: seq<KeyEvent>, c: Seen, k: nat)
    requires SameClosing(SinceRetired(es), k) && k >= 1 && c.what.closeWindows == k
    ensures var u := Observed(n, SlotOf(n, es), c.what, c.at);
      u.closed.Some? && u.closed.value.closeReason == Recovered <==>
        SlotOf(n, es).Some? && c.what.current && Recovers(c.what) && Trailing(SinceRetired(es + [Saw(c)])) == k
  {
    hide EpisodeId, SlotOf, SlotAfter, PeakSince;
    assert (es + [Saw(c)])[..|es|] == es;
    if SlotOf(n, es).Some? {
      var cs := SinceRetired(es);
      var j := EpisodeMeaning(n, es, k);
      assert (cs + [c])[..|cs|] == cs;
    }
  }

  /** Observation j asserted instability, and none since, j included, ended the episode: each was of
      the current generation, asserted instability or counted towards recovery, and never were there
      k of the latter in a row. */
  ghost predicate Lasts(cs: seq<Seen>, j: nat, k: nat) {
    && j < |cs| && Asserts(cs[j].what)
    && forall i :: j <= i < |cs| ==> LastsThrough(cs, i, k)
  }

  ghost predicate LastsThrough(cs: seq<Seen>, i: nat, k: nat)
    requires i < |cs|
  {
    cs[i].what.current && (Asserts(cs[i].what) || Recovers(cs[i].what)) && Trailing(cs[..i + 1]) < k
  }

  /** When a key has an open episode, by its observations alone: exactly when one of them since the
      last retirement asserted instability and nothing since has ended it. */
  lemma OpenIff(n: Naming, es: seq<KeyEvent>, k: nat)
    requires SameClosing(SinceRetired(es), k) && k >= 1
    ensures SlotOf(n, es).Some? <==> exists j: nat :: Lasts(SinceRetired(es), j, k)
  {
    hide SlotOf, SinceRetired, SlotAfter, SameClosing, Lasts;
    RetiringStartsAnew(n, es);
    OpenIffSeen(n, SinceRetired(es), k);
  }

  lemma {:induction false} OpenIffSeen(n: Naming, cs: seq<Seen>, k: nat)
    requires SameClosing(cs, k) && k >= 1
    ensures SlotAfter(n, cs).Some? <==> exists j: nat :: Lasts(cs, j, k)
  {
    hide EpisodeId, Lasts, LastsThrough, OpenSince;
    if cs == [] {
      NothingLasts(k);
    } else {
      var last := |cs| - 1;
      var front := cs[..last];
      OpenIffSeen(n, front, k);
      LastsNext(front, cs[last], k);
      assert front + [cs[last]] == cs;
      if SlotAfter(n, front).Some? {
        var j := ObservedMeaning(n, front, k);
        RecoveriesTrail(n, front, j, SlotAfter(n, front).value);
      }
      OpenNext(n, SlotAfter(n, front), cs[last], Trailing(front), k);
    }
  }

  lemma NothingLasts(k: nat)
    ensures forall j: nat :: !Lasts([], j, k)
  {
  }

  lemma RecoveriesTrail(n: Naming, cs: seq<Seen>, j: nat, e: Episode)
    requires OpenSince(n, cs, j, e)
    ensures e.recoveries == Trailing(cs)
  {
  }

  // One more observation, on the side of the episode.
  lemma OpenNext(n: Naming, slot: Option<Episode>, c: Seen, trailing: nat, k: nat)
    requires c.what.closeWindows == k && k >= 1 && (slot.Some? ==> slot.value.recoveries == trailing)
    ensures Observed(n, slot, c.what, c.at).slot.Some? <==>
      c.what.current && (Asserts(c.what) || (slot.Some? && Recovers(c.what) && trailing + 1 < k))
  {
    hide EpisodeId;
  }

  // The same on the side of the observations.
  lemma LastsNext(cs: seq<Seen>, c: Seen, k: nat)
    requires k >= 1
    ensures (exists j: nat :: Lasts(cs + [c], j, k)) <==>
      c.what.current &&
      (Asserts(c.what) || ((exists j: nat :: Lasts(cs, j, k)) && Recovers(c.what) && Trailing(cs) + 1 < k))
  {
    hide LastsThrough;
    var all, last := cs + [c], |cs|;
    assert all[..last] == cs && all[..last + 1] == all && all[last] == c;
    assert LastsThrough(all, last, k) <==>
      c.what.current && (Asserts(c.what) || (Recovers(c.what) && Trailing(cs) + 1 < k)) by {
      ThroughLast(all, k);
    }
    forall i: nat | i < last
      ensures LastsThrough(all, i, k) <==> LastsThrough(cs, i, k)
    {
      assert all[..i + 1] == cs[..i + 1];
      ThroughSame(all, cs, i, k);
    }
    if j: nat :| Lasts(all, j, k) {
      assert LastsThrough(all, last, k);
      if j < last {
        assert Lasts(cs, j, k);
      }
    }
    if Asserts(c.what) && LastsThrough(all, last, k) {
      assert Lasts(all, last, k);
    }
    if j: nat :| Lasts(cs, j, k) && LastsThrough(all, last, k) {
      assert Lasts(all, j, k);
    }
  }

  lemma ThroughLast(cs: seq<Seen>, k: nat)
    requires cs != [] && k >= 1
    ensures var c := cs[|cs| - 1].what;
      LastsThrough(cs, |cs| - 1, k) <==>
        c.current && (Asserts(c) || (Recovers(c) && Trailing(cs[..|cs| - 1]) + 1 < k))
  {
    assert cs[..|cs|] == cs;
  }

  lemma ThroughSame(all: seq<Seen>, cs: seq<Seen>, i: nat, k: nat)
    requires i < |cs| <= |all| && all[..i + 1] == cs[..i + 1]
    ensures LastsThrough(all, i, k) <==> LastsThrough(cs, i, k)
  {
    assert all[i] == all[..i + 1][i] && cs[i] == cs[..i + 1][i];
  }

  /** An episode starts exactly when instability is asserted of the current generation and none is
      open, and every other ending names its cause. */
  lemma OpensIff(n: Naming, slot: Option<Episode>, c: Classified, now: I64)
    ensures var u := Observed(n, slot, c, now);
      && (u.started.Some? <==> slot.None? && c.current && Asserts(c))
      && (u.closed.Some? && u.closed.value.closeReason == Superseded <==> slot.Some? && !c.current)
      && (u.closed.Some? && u.closed.value.closeReason == EvidenceLost <==>
            slot.Some? && c.current && !Asserts(c) && !Recovers(c))
      && (u.extended <==> slot.Some? && u.slot.Some?)
      && (u.started.Some? ==> u.slot == u.started)
    ensures var u := Observed(n, slot, c, now);
      u.closed.Some? ==> (
        && u.slot.None? && slot.Some? && u.closed.value.id == slot.value.id
        && u.closed.value.closedAt.Some? && u.closed.value.openedAt <= u.closed.value.closedAt.value)
  {
    hide EpisodeId;
  }
}
