/** Paths and route generations (src/path.cpp). */
module Paths {
  import opened Errors
  import opened CanonicalBytes
  import opened Lists
  import opened RecordForms

  const MAX_HISTORY: nat := 256
  const MAX_HOPS_PER_PATH: nat := 64
  const MAX_ORDINAL: U64 := 0xFFFF_FFFF_FFFF_FFFF

  datatype Topology = Topology(digest: Digest, hops: seq<Id>)

  datatype Generation = Generation(
    id: Id, path: Id, ordinal: U64, topology: Digest, revision: U64, openedAt: I64,
    closedAt: Option<I64>, hopCount: U32, cause: Bytes, closeReason: Bytes)

  function GenerationTag(): Bytes { EncStr(Ascii("jitter.generation.v1")) }

  function GenerationId(sch: Scheme, path: Id, ordinal: U64, topology: Digest): Id {
    IdOf(sch.digest(GenerationTag() + (path + (EncU64(ordinal) + topology))))
  }

  /** Two generations of one identity are the same generation of one path with one topology, or two inputs
      with one identity are at hand. */
  lemma SameIdSameGeneration(
    sch: Scheme, path: Id, ordinal: U64, topology: Digest, path': Id, ordinal': U64, topology': Digest)
    returns (x: Bytes, y: Bytes)
    requires GenerationId(sch, path, ordinal, topology) == GenerationId(sch, path', ordinal', topology')
    ensures (path == path' && ordinal == ordinal' && topology == topology')
      || (x != y && IdOf(sch.digest(x)) == IdOf(sch.digest(y)))
  {
    hide GenerationTag, IdOf, EncU64;
    var a, b := path + (EncU64(ordinal) + topology), path' + (EncU64(ordinal') + topology');
    x, y := GenerationTag() + a, GenerationTag() + b;
    if x == y {
      assert a == x[|GenerationTag()|..] == y[|GenerationTag()|..] == b;
      IdRoundTrip(path, EncU64(ordinal) + topology);
      IdRoundTrip(path', EncU64(ordinal') + topology');
      U64RoundTrip(ordinal, topology);
      U64RoundTrip(ordinal', topology');
    }
  }

  function TopologyChanged(): Bytes { Ascii("topology_changed") }

  // Counters saturate instead of wrapping.
  function Next(v: U64): U64 {
    if v == MAX_ORDINAL then v else v + 1
  }

  // ---------------------------------------------------------------------------
  // The history of one path
  // ---------------------------------------------------------------------------

  function Last(h: seq<Generation>): Generation
    requires h != []
  {
    h[|h| - 1]
  }

  function WithLast(h: seq<Generation>, g: Generation): seq<Generation>
    requires h != []
  {
    h[..|h| - 1] + [g]
  }

  function Later(a: I64, b: I64): I64 {
    if a < b then b else a
  }

  /** The generation in force when the topology changes, closed. */
  function ClosedBy(g: Generation, now: I64): Generation {
    if g.closedAt.Some? then g
    else g.(closedAt := Some(Later(now, g.openedAt)), closeReason := TopologyChanged())
  }

  function Opened(sch: Scheme, path: Id, ordinal: U64, t: Topology, now: I64, cause: Bytes): Generation {
    Generation(GenerationId(sch, path, ordinal, t.digest), path, ordinal, t.digest, 0, now, None,
               |t.hops| % 0x1_0000_0000, cause, [])
  }

  function NextOrdinal(h: seq<Generation>): U64 {
    if h == [] then 1 else Next(Last(h).ordinal)
  }

  /** The history with nothing dropped, after a topology was observed. */
  function Grown(sch: Scheme, path: Id, h: seq<Generation>, t: Topology, now: I64, cause: Bytes): seq<Generation> {
    if h != [] && Last(h).topology == t.digest then h
    else
      (if h == [] then [] else WithLast(h, ClosedBy(Last(h), now)))
        + [Opened(sch, path, NextOrdinal(h), t, now, cause)]
  }

  /** What the catalog keeps of the path after the observation. */
  function HistoryAfter(
    sch: Scheme, path: Id, h: seq<Generation>, t: Topology, now: I64, cause: Bytes
  ): seq<Generation> {
    var grown := Grown(sch, path, h, t, now, cause);
    if grown == h then h else LastN(grown, MAX_HISTORY)
  }

  function Revised(h: seq<Generation>, cause: Bytes): seq<Generation> {
    if h == [] then h
    else WithLast(h, Last(h).(revision := Next(Last(h).revision), cause := cause))
  }

  function Ended(h: seq<Generation>, now: I64, reason: Bytes): seq<Generation> {
    if h == [] || Last(h).closedAt.Some? then h
    else WithLast(h, Last(h).(closedAt := Some(now), closeReason := reason))
  }

  function HistoryOf(gs: map<Id, seq<Generation>>, path: Id): seq<Generation> {
    if path in gs then gs[path] else []
  }

  // ---------------------------------------------------------------------------
  // The catalog object
  // ---------------------------------------------------------------------------

  class PathCatalog {
    const sch: Scheme
    var paths: set<Id>
    var generations: map<Id, seq<Generation>>

    constructor (sch: Scheme)
      ensures this.sch == sch && paths == {} && generations == map[]
    {
      this.sch := sch;
      paths := {};
      generations := map[];
    }

    method ObserveTopology(path: Id, t: Topology, now: I64, cause: Bytes) returns (r: Result<(Generation, bool)>)
      modifies this`generations
      ensures path !in paths ==> r == Err(NotFound)
      ensures path in paths && |t.hops| > MAX_HOPS_PER_PATH ==> r == Err(LimitExceeded)
      ensures r.Err? ==> generations == old(generations)
      ensures forall q: Id :: q != path ==> HistoryOf(generations, q) == HistoryOf(old(generations), q)
      ensures path in paths && |t.hops| <= MAX_HOPS_PER_PATH ==>
        var h := HistoryOf(old(generations), path);
        var grown := Grown(sch, path, h, t, now, cause);
        && HistoryOf(generations, path) == HistoryAfter(sch, path, h, t, now, cause)
        && r == Ok((Last(grown), grown != h))
    {
      hide Opened;
      if path !in paths {
        return Err(NotFound);
      }
      if |t.hops| > MAX_HOPS_PER_PATH {
        return Err(LimitExceeded);
      }
      var history := HistoryOf(generations, path);
      var ordinal: U64 := 1;
      if history != [] {
        var current := history[|history| - 1];
        if current.topology == t.digest {
          return Ok((current, false));
        }
        if current.closedAt.None? {
          current := current.(closedAt := Some(if now < current.openedAt then current.openedAt else now),
                              closeReason := TopologyChanged());
          history := history[..|history| - 1] + [current];
        }
        ordinal := Next(current.ordinal);
      }
      var next := Opened(sch, path, ordinal, t, now, cause);
      history := history + [next];
      assert history == Grown(sch, path, HistoryOf(generations, path), t, now, cause);
      history := DropOldest(history);
      generations := generations[path := history];
      r := Ok((next, true));
    }

    // Bounded retention, shared by observe_topology and import_generation.
    method DropOldest(all: seq<Generation>) returns (history: seq<Generation>)
      ensures history == LastN(all, MAX_HISTORY)
    {
      history := all;
      ghost var dropped := 0;
      while |history| > MAX_HISTORY
        invariant dropped <= |all| && history == all[dropped..]
        invariant dropped > 0 ==> |history| >= MAX_HISTORY
        decreases |history|
      {
        history := history[1..];
        dropped := dropped + 1;
      }
    }

    method BumpRevision(path: Id, cause: Bytes) returns (status: Status)
      modifies this`generations
      ensures HistoryOf(old(generations), path) == [] ==>
        status == Failure(NotFound) && generations == old(generations)
      ensures HistoryOf(old(generations), path) != [] ==>
        && status == Success
        && generations == old(generations)[path := Revised(HistoryOf(old(generations), path), cause)]
    {
      var history := HistoryOf(generations, path);
      if history == [] {
        return Failure(NotFound);
      }
      var g := history[|history| - 1];
      g := g.(revision := Next(g.revision), cause := cause);
      generations := generations[path := history[..|history| - 1] + [g]];
      status := Success;
    }

    method CloseCurrent(path: Id, now: I64, reason: Bytes) returns (status: Status)
      modifies this`generations
      ensures HistoryOf(old(generations), path) == [] ==>
        status == Failure(NotFound) && generations == old(generations)
      ensures HistoryOf(old(generations), path) != [] ==>
        && status == Success
        && generations == old(generations)[path := Ended(HistoryOf(old(generations), path), now, reason)]
    {
      var history := HistoryOf(generations, path);
      if history == [] {
        return Failure(NotFound);
      }
      var g := history[|history| - 1];
      if g.closedAt.None? {
        g := g.(closedAt := Some(now), closeReason := reason);
        history := history[..|history| - 1] + [g];
      }
      generations := generations[path := history];
      status := Success;
    }

    method ImportGeneration(g: Generation) returns (status: Status)
      modifies this`generations
      ensures status == ImportStatus(paths, old(generations), g)
      ensures generations == if status.Success? then Imported(old(generations), g) else old(generations)
    {
      if g.path !in paths {
        return Failure(NotFound);
      }
      if g.ordinal == 0 {
        return Failure(InvalidArgument);
      }
      var history := HistoryOf(generations, g.path);
      if history != [] && g.ordinal <= history[|history| - 1].ordinal {
        return Failure(Conflict);
      }
      history := DropOldest(history + [g]);
      generations := generations[g.path := history];
      status := Success;
    }
  }

  function ImportStatus(paths: set<Id>, gs: map<Id, seq<Generation>>, g: Generation): Status {
    if g.path !in paths then Failure(NotFound)
    else if g.ordinal == 0 then Failure(InvalidArgument)
    else
      var h := HistoryOf(gs, g.path);
      if h != [] && g.ordinal <= Last(h).ordinal then Failure(Conflict) else Success
  }

  /** The generations number upwards from a positive ordinal. */
  predicate OrdinalsClimb(h: seq<Generation>) {
    (forall i :: 0 <= i < |h| ==> h[i].ordinal > 0) && forall i, j :: 0 <= i < j < |h| ==> h[i].ordinal < h[j].ordinal
  }

  /** Importing refuses exactly what does not belong to a known path or would stop the generations of its
      path from numbering upwards, and keeps that they do. */
  lemma ImportsIff(paths: set<Id>, gs: map<Id, seq<Generation>>, g: Generation)
    requires OrdinalsClimb(HistoryOf(gs, g.path))
    ensures ImportStatus(paths, gs, g).Success? <==> g.path in paths && OrdinalsClimb(HistoryOf(gs, g.path) + [g])
    ensures ImportStatus(paths, gs, g) == Failure(NotFound) <==> g.path !in paths
    ensures g.path in paths ==> (ImportStatus(paths, gs, g) == Failure(InvalidArgument) <==> g.ordinal == 0)
    ensures g.path in paths && g.ordinal > 0 ==>
      (ImportStatus(paths, gs, g) == Failure(Conflict) <==> !OrdinalsClimb(HistoryOf(gs, g.path) + [g]))
    ensures ImportStatus(paths, gs, g).Success? ==> OrdinalsClimb(HistoryOf(Imported(gs, g), g.path))
  {
    var h := HistoryOf(gs, g.path);
    var all := h + [g];
    assert all[|h|] == g;
    assert forall i :: 0 <= i < |h| ==> all[i] == h[i];
    if OrdinalsClimb(all) && h != [] {
      assert all[|h| - 1].ordinal < all[|h|].ordinal;
    }
  }

  function Imported(gs: map<Id, seq<Generation>>, g: Generation): map<Id, seq<Generation>> {
    gs[g.path := LastN(HistoryOf(gs, g.path) + [g], MAX_HISTORY)]
  }

  // ---------------------------------------------------------------------------
  // Runs over one path
  // ---------------------------------------------------------------------------

  datatype Event =
    | Observe(topology: Topology, at: I64, why: Bytes)
    | Revise(why: Bytes)
    | Close(at: I64, why: Bytes)

  function Step(sch: Scheme, path: Id, h: seq<Generation>, e: Event): seq<Generation> {
    match e
    case Observe(t, at, why) => Grown(sch, path, h, t, at, why)
    case Revise(why) => Revised(h, why)
    case Close(at, why) => Ended(h, at, why)
  }

  /** Everything ever opened. */
  function Log(sch: Scheme, path: Id, es: seq<Event>): seq<Generation> {
    if es == [] then [] else Step(sch, path, Log(sch, path, es[..|es| - 1]), es[|es| - 1])
  }

  /** What the catalog retains: the bound applied after every event. */
  function Retained(sch: Scheme, path: Id, es: seq<Event>): seq<Generation> {
    if es == [] then [] else LastN(Step(sch, path, Retained(sch, path, es[..|es| - 1]), es[|es| - 1]), MAX_HISTORY)
  }

  /** The catalog holds the last generations of the full log, however long the run. */
  lemma {:induction false} RetainedIsRecentLog(sch: Scheme, path: Id, es: seq<Event>)
    ensures Retained(sch, path, es) == LastN(Log(sch, path, es), MAX_HISTORY)
  {
    hide Step;
    if es != [] {
      RetainedIsRecentLog(sch, path, es[..|es| - 1]);
      StepOfRecent(sch, path, Log(sch, path, es[..|es| - 1]), es[|es| - 1]);
    }
  }

  lemma StepOfRecent(sch: Scheme, path: Id, h: seq<Generation>, e: Event)
    ensures LastN(Step(sch, path, LastN(h, MAX_HISTORY), e), MAX_HISTORY) == LastN(Step(sch, path, h, e), MAX_HISTORY)
  {
    hide Opened, ClosedBy;
    var recent := LastN(h, MAX_HISTORY);
    if h != [] {
      assert Last(recent) == Last(h);
      var k := |h| - |recent|;
      var s := Step(sch, path, h, e);
      var r := Step(sch, path, recent, e);
      assert recent == h[k..];
      assert h[..|h| - 1][k..] == recent[..|recent| - 1];
      assert r == s[k..];
      Suffix(s, k, MAX_HISTORY);
    }
  }

  // ---------------------------------------------------------------------------
  // What the current generation records
  // ---------------------------------------------------------------------------

  function Revisions(es: seq<Event>): nat {
    if es == [] then 0 else Revisions(es[..|es| - 1]) + if es[|es| - 1].Revise? then 1 else 0
  }

  /** The reason given last, by the opening or by a revision. */
  function LastCause(opening: Bytes, es: seq<Event>): Bytes {
    if es == [] then opening
    else if es[|es| - 1].Revise? then es[|es| - 1].why else LastCause(opening, es[..|es| - 1])
  }

  /** The first time the route was closed from outside, and why. */
  function FirstClosing(es: seq<Event>): Option<Event> {
    if es == [] then None
    else
      var before := FirstClosing(es[..|es| - 1]);
      if before.Some? then before else if es[|es| - 1].Close? then Some(es[|es| - 1]) else None
  }

  /** g was opened by event j and records what happened since: nothing but observations of its own
      topology, revisions and closings. */
  ghost predicate Records(es: seq<Event>, j: nat, g: Generation) {
    && j < |es| && es[j].Observe?
    && g.topology == es[j].topology.digest && g.openedAt == es[j].at
    && g.hopCount == |es[j].topology.hops| % 0x1_0000_0000
    && (forall i :: j < i < |es| && es[i].Observe? ==> es[i].topology.digest == g.topology)
    && var since := es[j + 1..];
    && g.revision == (if Revisions(since) <= MAX_ORDINAL then Revisions(since) else MAX_ORDINAL)
    && g.cause == LastCause(es[j].why, since)
    && var closing := FirstClosing(since);
       g.closedAt == (if closing.Some? then Some(ClosingTime(closing.value)) else None)
       && g.closeReason == (if closing.Some? then closing.value.why else [])
  }

  function ClosingTime(e: Event): I64 {
    match e
    case Close(at, _) => at
    case Observe(_, at, _) => at
    case Revise(_) => 0
  }

  /** What the last generation of a path says, over any run: which observation opened it and with how many
      hops, how often it was revised since, the reason given last, and when and why it was first
      closed from outside, if it was. */
  lemma {:induction false} LastRecords(sch: Scheme, path: Id, es: seq<Event>) returns (j: nat)
    requires Log(sch, path, es) != []
    ensures Records(es, j, Last(Log(sch, path, es)))
  {
    hide Records, Grown, Revised, Ended;
    var n := |es| - 1;
    var front, e := es[..n], es[n];
    var h := Log(sch, path, front);
    assert es == front + [e];
    if e.Observe? && (h == [] || Last(h).topology != e.topology.digest) {
      j := n;
      OpeningRecords(sch, path, h, es);
    } else {
      NothingFromNothing(sch, path, h, e);
      j := LastRecords(sch, path, front);
      StillRecords(sch, path, front, j, h, e);
    }
  }

  lemma NothingFromNothing(sch: Scheme, path: Id, h: seq<Generation>, e: Event)
    requires e.Observe? ==> h != []
    ensures h == [] ==> Step(sch, path, h, e) == []
  {
  }

  lemma OpeningRecords(sch: Scheme, path: Id, h: seq<Generation>, es: seq<Event>)
    requires es != [] && es[|es| - 1].Observe?
    requires h == [] || Last(h).topology != es[|es| - 1].topology.digest
    ensures Step(sch, path, h, es[|es| - 1]) != []
    ensures Records(es, |es| - 1, Last(Step(sch, path, h, es[|es| - 1])))
  {
    hide GenerationId, ClosedBy;
    assert es[|es|..] == [];
  }

  lemma StillRecords(sch: Scheme, path: Id, es: seq<Event>, j: nat, h: seq<Generation>, e: Event)
    requires h != [] && Records(es, j, Last(h))
    requires e.Observe? ==> Last(h).topology == e.topology.digest
    ensures Step(sch, path, h, e) != []
    ensures Records(es + [e], j, Last(Step(sch, path, h, e)))
  {
    hide GenerationId, ClosedBy, Opened;
    var all := es + [e];
    assert all[j + 1..] == es[j + 1..] + [e];
    assert all[j + 1..][..|all[j + 1..]| - 1] == es[j + 1..];
    assert forall i :: 0 <= i < |es| ==> all[i] == es[i];
  }

  // ---------------------------------------------------------------------------
  // Segmentation
  // ---------------------------------------------------------------------------

  function TimeOf(e: Event, before: I64): I64 {
    match e
    case Observe(_, at, _) => at
    case Revise(_) => before
    case Close(at, _) => at
  }

  /** The time of the last timed event, or start. */
  function ClockAfter(es: seq<Event>, start: I64): I64 {
    if es == [] then start else TimeOf(es[|es| - 1], ClockAfter(es[..|es| - 1], start))
  }

  /** The clock never runs backwards, and only topology changes close with that reason. */
  ghost predicate WellClocked(es: seq<Event>, start: I64) {
    es == [] ||
    (&& WellClocked(es[..|es| - 1], start)
     && TimeOf(es[|es| - 1], ClockAfter(es[..|es| - 1], start)) >= ClockAfter(es[..|es| - 1], start)
     && (es[|es| - 1].Close? ==> es[|es| - 1].why != TopologyChanged()))
  }

  ghost predicate Numbered(sch: Scheme, path: Id, h: seq<Generation>, first: nat) {
    forall i :: 0 <= i < |h| ==>
      && h[i].ordinal == first + i && h[i].path == path
      && h[i].id == GenerationId(sch, path, h[i].ordinal, h[i].topology)
  }

  /** Two generations in a row. */
  ghost predicate Joined(a: Generation, b: Generation) {
    && a.closedAt.Some? && a.topology != b.topology
    && a.openedAt <= a.closedAt.value <= b.openedAt
    && (a.closeReason == TopologyChanged() ==> a.closedAt.value == b.openedAt)
  }

  ghost predicate Chained(h: seq<Generation>) {
    forall i {:trigger h[i]} :: 0 <= i < |h| - 1 ==> Joined(h[i], h[i + 1])
  }

  ghost predicate EndsBy(h: seq<Generation>, now: I64) {
    h != [] ==>
      && Last(h).openedAt <= now
      && (Last(h).closedAt.Some? ==> Last(h).openedAt <= Last(h).closedAt.value <= now)
      && (Last(h).closedAt.Some? ==> Last(h).closeReason != TopologyChanged())
  }

  lemma {:induction false} LogNumbered(sch: Scheme, path: Id, es: seq<Event>)
    requires |es| < MAX_ORDINAL
    ensures |Log(sch, path, es)| <= |es| && Numbered(sch, path, Log(sch, path, es), 1)
  {
    hide Step, GenerationId;
    if es != [] {
      LogNumbered(sch, path, es[..|es| - 1]);
      StepNumbered(sch, path, Log(sch, path, es[..|es| - 1]), es[|es| - 1]);
    }
  }

  lemma StepNumbered(sch: Scheme, path: Id, h: seq<Generation>, e: Event)
    requires Numbered(sch, path, h, 1) && |h| < MAX_ORDINAL
    ensures Numbered(sch, path, Step(sch, path, h, e), 1) && |Step(sch, path, h, e)| <= |h| + 1
  {
    hide GenerationId;
  }

  lemma {:induction false} LogChained(sch: Scheme, path: Id, es: seq<Event>, start: I64)
    requires WellClocked(es, start)
    ensures Chained(Log(sch, path, es)) && EndsBy(Log(sch, path, es), ClockAfter(es, start))
  {
    hide Step, Chained, EndsBy, TopologyChanged;
    if es == [] {
      NothingChained(start);
    } else {
      LogChained(sch, path, es[..|es| - 1], start);
      StepChained(sch, path, Log(sch, path, es[..|es| - 1]), es[|es| - 1], ClockAfter(es[..|es| - 1], start));
    }
  }

  lemma NothingChained(start: I64)
    ensures Chained([]) && EndsBy([], start)
  {
  }

  lemma StepChained(sch: Scheme, path: Id, h: seq<Generation>, e: Event, now: I64)
    requires Chained(h) && EndsBy(h, now) && TimeOf(e, now) >= now
    requires e.Close? ==> e.why != TopologyChanged()
    ensures Chained(Step(sch, path, h, e)) && EndsBy(Step(sch, path, h, e), TimeOf(e, now))
  {
    hide TopologyChanged, GenerationId;
    if h != [] && e.Observe? && Last(h).topology != e.topology.digest {
      GrownChained(sch, path, h, e.topology, e.at, e.why, now);
    } else if h != [] {
      LastReplaced(h, Last(Step(sch, path, h, e)));
    }
  }

  lemma LastReplaced(h: seq<Generation>, g: Generation)
    requires h != [] && g.openedAt == Last(h).openedAt && g.topology == Last(h).topology
    ensures Chained(WithLast(h, g)) <==> Chained(h)
  {
    hide TopologyChanged;
    var s := WithLast(h, g);
    forall i | 0 <= i < |h| - 1
      ensures Joined(s[i], s[i + 1]) <==> Joined(h[i], h[i + 1])
    {
    }
  }

  /** Whether a generation with another topology can open at this time behind g without
      overlapping it or leaving a gap that the close reason denies. */
  ghost predicate CanFollow(g: Generation, at: I64) {
    match g.closedAt
    case None => g.openedAt <= at
    case Some(end) => g.openedAt <= end <= at && (g.closeReason == TopologyChanged() ==> end == at)
  }

  lemma Extended(h: seq<Generation>, g: Generation)
    requires h != []
    ensures Chained(h + [g]) <==> Chained(h) && Joined(Last(h), g)
  {
    hide Joined;
    var s := h + [g];
    assert s[|h| - 1] == Last(h) && s[|h|] == g;
    if Chained(s) {
      assert Joined(s[|h| - 1], s[|h|]);
      forall i | 0 <= i < |h| - 1
        ensures Joined(h[i], h[i + 1])
      {
        assert Joined(s[i], s[i + 1]);
      }
    }
  }

  /** A changed topology keeps the history segmented exactly when its generation can follow the
      last one. */
  lemma GrownChainedIff(sch: Scheme, path: Id, h: seq<Generation>, t: Topology, at: I64, why: Bytes)
    requires h != [] && Last(h).topology != t.digest
    ensures Chained(Grown(sch, path, h, t, at, why)) <==> Chained(h) && CanFollow(Last(h), at)
  {
    hide TopologyChanged, GenerationId, Chained;
    var closed := WithLast(h, ClosedBy(Last(h), at));
    LastReplaced(h, ClosedBy(Last(h), at));
    Extended(closed, Opened(sch, path, NextOrdinal(h), t, at, why));
    assert Joined(Last(closed), Opened(sch, path, NextOrdinal(h), t, at, why)) <==> CanFollow(Last(h), at);
  }

  /** In a history whose last generation was not closed early, that is: exactly when the new
      generation does not begin before the last one was closed or, if it is open, opened. */
  lemma FollowsFrom(g: Generation, at: I64)
    requires g.closedAt.Some? ==> g.openedAt <= g.closedAt.value && g.closeReason != TopologyChanged()
    ensures CanFollow(g, at) <==> at >= (if g.closedAt.Some? then g.closedAt.value else g.openedAt)
  {
    hide TopologyChanged;
  }

  lemma GrownChained(sch: Scheme, path: Id, h: seq<Generation>, t: Topology, at: I64, why: Bytes, now: I64)
    requires h != [] && Chained(h) && EndsBy(h, now) && at >= now && Last(h).topology != t.digest
    ensures Chained(Grown(sch, path, h, t, at, why)) && EndsBy(Grown(sch, path, h, t, at, why), at)
  {
    hide TopologyChanged, GenerationId, Chained;
    GrownChainedIff(sch, path, h, t, at, why);
  }

  /** Whether event k of a run, if it opens a generation behind another, opens it in time. */
  ghost predicate InTime(sch: Scheme, path: Id, es: seq<Event>, k: nat)
    requires k < |es|
  {
    var h := Log(sch, path, es[..k]);
    es[k].Observe? && h != [] && Last(h).topology != es[k].topology.digest ==> CanFollow(Last(h), es[k].at)
  }

  /** The exact condition for the segmentation, over every run and with no assumption about its
      clock: every observation that opens a generation can follow the generation before it. */
  lemma {:induction false} SegmentedIff(sch: Scheme, path: Id, es: seq<Event>)
    ensures Chained(Log(sch, path, es)) <==> forall k :: 0 <= k < |es| ==> InTime(sch, path, es, k)
  {
    hide Chained, CanFollow, TopologyChanged, GenerationId;
    if es == [] {
      NothingChained(0);
    } else {
      var front := es[..|es| - 1];
      var h := Log(sch, path, front);
      var e := es[|es| - 1];
      SegmentedIff(sch, path, front);
      forall k | 0 <= k < |front|
        ensures InTime(sch, path, front, k) <==> InTime(sch, path, es, k)
      {
        assert front[..k] == es[..k];
      }
      StepChainedIff(sch, path, h, e);
      assert InTime(sch, path, es, |es| - 1) <==>
        (e.Observe? && h != [] && Last(h).topology != e.topology.digest ==> CanFollow(Last(h), e.at));
      hide InTime;
    }
  }

  lemma StepChainedIff(sch: Scheme, path: Id, h: seq<Generation>, e: Event)
    ensures Chained(Step(sch, path, h, e)) <==>
      Chained(h) && (e.Observe? && h != [] && Last(h).topology != e.topology.digest ==> CanFollow(Last(h), e.at))
  {
    hide TopologyChanged, GenerationId, Joined, CanFollow;
    if h != [] && e.Observe? && Last(h).topology != e.topology.digest {
      GrownChainedIff(sch, path, h, e.topology, e.at, e.why);
    } else if h != [] {
      LastReplaced(h, Last(Step(sch, path, h, e)));
    }
  }

  /** Over any run with a non-decreasing clock and fewer events than ordinals, what a path retains
      carries consecutive ordinals and identities to match, only its last generation can be open,
      neighbours differ in topology and never overlap, and a generation closed by a topology change
      ends at the instant the next one begins. */
  lemma RouteSegmentation(sch: Scheme, path: Id, es: seq<Event>, start: I64)
    requires WellClocked(es, start) && |es| < MAX_ORDINAL
    ensures var h := Retained(sch, path, es); var all := Log(sch, path, es);
      && |h| <= MAX_HISTORY && |h| <= |all|
      && Numbered(sch, path, h, 1 + |all| - |h|)
      && Chained(h)
      && EndsBy(h, ClockAfter(es, start))
  {
    hide Numbered, Chained, EndsBy, Log, Retained;
    RetainedIsRecentLog(sch, path, es);
    LogNumbered(sch, path, es);
    LogChained(sch, path, es, start);
    var all := Log(sch, path, es);
    RecentSegmented(sch, path, all, |all| - |Retained(sch, path, es)|, ClockAfter(es, start));
  }

  lemma RecentSegmented(sch: Scheme, path: Id, all: seq<Generation>, k: nat, now: I64)
    requires Numbered(sch, path, all, 1) && Chained(all) && EndsBy(all, now) && k <= |all|
    requires k < |all| || all == []
    ensures Numbered(sch, path, all[k..], 1 + k) && Chained(all[k..]) && EndsBy(all[k..], now)
  {
    hide TopologyChanged, GenerationId, Joined;
    assert forall i :: 0 <= i < |all| - k ==> all[k..][i] == all[k + i];
    forall i | 0 <= i < |all[k..]| - 1
      ensures Joined(all[k..][i], all[k..][i + 1])
    {
      assert Joined(all[k + i], all[k + i + 1]);
    }
  }

  // ---------------------------------------------------------------------------
  // Tiling
  // ---------------------------------------------------------------------------

  ghost predicate InForce(g: Generation, t: int) {
    g.openedAt <= t && (g.closedAt.Some? ==> t < g.closedAt.value)
  }

  lemma {:induction false} OpeningsOrdered(h: seq<Generation>, i: nat, j: nat)
    requires Chained(h) && i < j < |h|
    ensures h[i].closedAt.Some? && h[i].closedAt.value <= h[j].openedAt
    decreases j - i
  {
    hide TopologyChanged;
    assert Joined(h[j - 1], h[j]);
    if i < j - 1 {
      OpeningsOrdered(h, i, j - 1);
    }
  }

  /** No instant has two generations in force. */
  lemma InForceOnce(h: seq<Generation>, t: int, i: nat, j: nat)
    requires Chained(h) && i < |h| && j < |h| && InForce(h[i], t) && InForce(h[j], t)
    ensures i == j
  {
    if i < j {
      OpeningsOrdered(h, i, j);
    } else if j < i {
      OpeningsOrdered(h, j, i);
    }
  }

  /** When only topology changes close generations, every instant since the first opening has
      exactly one generation in force. */
  lemma {:induction false} AlwaysOneInForce(h: seq<Generation>, t: int) returns (i: nat)
    requires Chained(h) && h != [] && h[0].openedAt <= t && Last(h).closedAt.None?
    requires forall k :: 0 <= k < |h| - 1 ==> h[k].closeReason == TopologyChanged()
    ensures i < |h| && InForce(h[i], t)
    ensures forall j :: 0 <= j < |h| && InForce(h[j], t) ==> j == i
  {
    hide TopologyChanged, Chained;
    i := FindInForce(h, t);
    forall j | 0 <= j < |h| && InForce(h[j], t)
      ensures j == i
    {
      InForceOnce(h, t, i, j);
    }
  }

  lemma {:induction false} FindInForce(h: seq<Generation>, t: int) returns (i: nat)
    requires Chained(h) && h != [] && h[0].openedAt <= t && Last(h).closedAt.None?
    requires forall k :: 0 <= k < |h| - 1 ==> h[k].closeReason == TopologyChanged()
    ensures i < |h| && InForce(h[i], t)
  {
    hide TopologyChanged;
    i := 0;
    while i < |h| - 1 && h[i].closedAt.value <= t
      invariant i < |h| && h[i].openedAt <= t
      invariant i < |h| - 1 ==> h[i].closedAt.Some?
      decreases |h| - i
    {
      assert Joined(h[i], h[i + 1]);
      i := i + 1;
      if i < |h| - 1 {
        assert Joined(h[i], h[i + 1]);
      }
    }
  }

  /** A history no caller closed by hand. */
  ghost predicate Tiled(h: seq<Generation>) {
    && (h != [] ==> Last(h).closedAt.None?)
    && (forall i {:trigger h[i]} :: 0 <= i < |h| - 1 ==>
          && h[i].closedAt == Some(Later(h[i + 1].openedAt, h[i].openedAt))
          && h[i].closeReason == TopologyChanged() && h[i].topology != h[i + 1].topology)
  }

  predicate NoClose(es: seq<Event>) {
    forall i :: 0 <= i < |es| ==> !es[i].Close?
  }

  lemma {:induction false} LogTiled(sch: Scheme, path: Id, es: seq<Event>)
    requires NoClose(es)
    ensures Tiled(Log(sch, path, es))
  {
    hide Step, Tiled, TopologyChanged;
    if es == [] {
      NothingTiled();
    } else {
      LogTiled(sch, path, es[..|es| - 1]);
      StepTiled(sch, path, Log(sch, path, es[..|es| - 1]), es[|es| - 1]);
    }
  }

  lemma NothingTiled()
    ensures Tiled([])
  {
  }

  lemma StepTiled(sch: Scheme, path: Id, h: seq<Generation>, e: Event)
    requires Tiled(h) && !e.Close?
    ensures Tiled(Step(sch, path, h, e))
  {
    hide TopologyChanged, GenerationId, Later;
    match e {
      case Observe(t, at, why) =>
        var s := Step(sch, path, h, e);
        assert h != [] && s != h ==> s[..|h| - 1] == h[..|h| - 1] && s[|h| - 1] == ClosedBy(Last(h), at);
      case Revise(_) =>
      case Close(_, _) =>
        assert false;
    }
  }

  ghost predicate OpeningTimesAscend(h: seq<Generation>) {
    forall i {:trigger h[i]} :: 0 <= i < |h| - 1 ==> h[i].openedAt <= h[i + 1].openedAt
  }

  /** A path whose generations are closed by topology changes alone is segmented exactly when their
      opening times never decrease. */
  lemma TilesIff(sch: Scheme, path: Id, es: seq<Event>)
    requires NoClose(es)
    ensures Chained(Log(sch, path, es)) <==> OpeningTimesAscend(Log(sch, path, es))
  {
    hide TopologyChanged, Log;
    LogTiled(sch, path, es);
    var h := Log(sch, path, es);
    forall i | 0 <= i < |h| - 1
      ensures Joined(h[i], h[i + 1]) <==> h[i].openedAt <= h[i + 1].openedAt
    {
    }
    hide Joined, Tiled;
    if Chained(h) {
      forall i | 0 <= i < |h| - 1
        ensures h[i].openedAt <= h[i + 1].openedAt
      {
        assert Joined(h[i], h[i + 1]);
      }
    } else {
      var i :| 0 <= i < |h| - 1 && !Joined(h[i], h[i + 1]);
    }
  }

  /** A path first registered without hops and given them later opens a generation at time zero.
      That loses the segmentation of a path that kept it so far exactly when its generation in
      force was opened at a positive time: the two then overlap. */
  lemma LateHopsOverlap(sch: Scheme, path: Id, es: seq<Event>, late: Topology, why: Bytes)
    requires NoClose(es) && Chained(Log(sch, path, es)) && Log(sch, path, es) != []
    requires Last(Log(sch, path, es)).topology != late.digest
    ensures var h := Log(sch, path, es); var after := Log(sch, path, es + [Observe(late, 0, why)]);
      && |after| == |h| + 1
      && (Chained(after) <==> Last(h).openedAt <= 0)
      && (Last(h).openedAt > 0 ==> after[|h| - 1].closedAt == Some(Last(h).openedAt) && after[|h|].openedAt == 0)
  {
    hide TopologyChanged, GenerationId, Chained;
    var e := Observe(late, 0, why);
    assert (es + [e])[..|es|] == es;
    LogTiled(sch, path, es);
    GrownChainedIff(sch, path, Log(sch, path, es), late, 0, why);
  }

  // ---------------------------------------------------------------------------
  // Saving and importing
  // ---------------------------------------------------------------------------

  /** Histories path by path, as all_generations lists them. */
  function AllGenerations(gs: map<Id, seq<Generation>>, order: seq<Id>): seq<Generation> {
    if order == [] then [] else HistoryOf(gs, order[0]) + AllGenerations(gs, order[1..])
  }

  function ImportedAll(gs: map<Id, seq<Generation>>, all: seq<Generation>): map<Id, seq<Generation>>
    decreases |all|
  {
    if all == [] then gs else ImportedAll(Imported(gs, all[0]), all[1..])
  }

  ghost predicate AllImport(paths: set<Id>, gs: map<Id, seq<Generation>>, all: seq<Generation>)
    decreases |all|
  {
    all == [] ||
    (ImportStatus(paths, gs, all[0]) == Success && AllImport(paths, Imported(gs, all[0]), all[1..]))
  }

  ghost predicate Storable(h: seq<Generation>, path: Id) {
    && |h| <= MAX_HISTORY
    && (forall i :: 0 <= i < |h| ==> h[i].path == path && h[i].ordinal > 0)
    && (forall i, j :: 0 <= i < j < |h| ==> h[i].ordinal < h[j].ordinal)
  }

  lemma {:induction false} ImportsOne(paths: set<Id>, gs: map<Id, seq<Generation>>, path: Id, done: nat,
                                      h: seq<Generation>, rest: seq<Generation>)
    requires path in paths && Storable(h, path) && done <= |h| && HistoryOf(gs, path) == h[..done]
    requires AllImport(paths, if h[done..] == [] then gs else gs[path := h], rest)
    ensures AllImport(paths, gs, h[done..] + rest)
    ensures ImportedAll(gs, h[done..] + rest) == ImportedAll(if h[done..] == [] then gs else gs[path := h], rest)
    decreases |h| - done
  {
    var all := h[done..] + rest;
    if done == |h| {
      assert all == rest;
    } else {
      assert all[0] == h[done] && all[1..] == h[done + 1..] + rest;
      assert h[..done] + [h[done]] == h[..done + 1];
      var next := gs[path := h[..done + 1]];
      assert Imported(gs, h[done]) == next;
      assert ImportStatus(paths, gs, h[done]) == Success;
      assert next[path := h] == gs[path := h];
      assert done + 1 == |h| ==> h[..done + 1] == h;
      ImportsOne(paths, next, path, done + 1, h, rest);
    }
  }

  ghost predicate SamePaths(a: map<Id, seq<Generation>>, b: map<Id, seq<Generation>>, order: seq<Id>) {
    forall i :: 0 <= i < |order| ==> HistoryOf(a, order[i]) == HistoryOf(b, order[i])
  }

  lemma {:induction false} ImportsAll(
    paths: set<Id>, start: map<Id, seq<Generation>>, gs: map<Id, seq<Generation>>, order: seq<Id>)
    requires forall i :: 0 <= i < |order| ==>
      order[i] in paths && Storable(HistoryOf(gs, order[i]), order[i]) && HistoryOf(start, order[i]) == []
    requires forall i, j :: 0 <= i < j < |order| ==> order[i] != order[j]
    ensures AllImport(paths, start, AllGenerations(gs, order))
    ensures SamePaths(ImportedAll(start, AllGenerations(gs, order)), gs, order)
    ensures SameElsewhere(ImportedAll(start, AllGenerations(gs, order)), start, order)
    decreases |order|
  {
    hide AllImport, ImportedAll, Storable, SamePaths, SameElsewhere;
    if order == [] {
      NothingToImport(paths, start);
      NoPathsDiffer(start, gs);
    } else {
      var p := order[0];
      var h := HistoryOf(gs, p);
      var rest := AllGenerations(gs, order[1..]);
      var next := if h == [] then start else start[p := h];
      assert forall i :: 0 <= i < |order[1..]| ==> order[1..][i] == order[i + 1];
      ImportsAll(paths, next, gs, order[1..]);
      assert h[..0] == [] && h[0..] == h;
      ImportsOne(paths, start, p, 0, h, rest);
      OneMorePath(ImportedAll(next, rest), next, start, gs, order);
    }
  }

  ghost predicate SameElsewhere(a: map<Id, seq<Generation>>, b: map<Id, seq<Generation>>, order: seq<Id>) {
    forall p: Id :: p !in order ==> HistoryOf(a, p) == HistoryOf(b, p)
  }

  lemma NoPathsDiffer(start: map<Id, seq<Generation>>, gs: map<Id, seq<Generation>>)
    ensures SamePaths(start, gs, []) && SameElsewhere(start, start, [])
  {
  }

  lemma OneMorePath(end: map<Id, seq<Generation>>, next: map<Id, seq<Generation>>, start: map<Id, seq<Generation>>,
                    gs: map<Id, seq<Generation>>, order: seq<Id>)
    requires order != [] && order[0] !in order[1..]
    requires HistoryOf(next, order[0]) == HistoryOf(gs, order[0])
    requires forall p: Id :: p != order[0] ==> HistoryOf(next, p) == HistoryOf(start, p)
    requires SamePaths(end, gs, order[1..]) && SameElsewhere(end, next, order[1..])
    ensures SamePaths(end, gs, order) && SameElsewhere(end, start, order)
  {
    hide HistoryOf;
    assert order == [order[0]] + order[1..];
    assert HistoryOf(end, order[0]) == HistoryOf(next, order[0]);
    forall i | 0 <= i < |order|
      ensures HistoryOf(end, order[i]) == HistoryOf(gs, order[i])
    {
      if i > 0 {
        assert order[i] == order[1..][i - 1];
      }
    }
  }

  lemma NothingToImport(paths: set<Id>, gs: map<Id, seq<Generation>>)
    ensures AllImport(paths, gs, []) && ImportedAll(gs, []) == gs
  {
  }

  /** Saving every retained history and importing the generations into a fresh catalog that knows
      the same paths reproduces every history; no import is refused. */
  lemma HistoriesSurviveImport(paths: set<Id>, gs: map<Id, seq<Generation>>, order: seq<Id>)
    requires forall p: Id :: p in order <==> p in gs
    requires forall i, j :: 0 <= i < j < |order| ==> order[i] != order[j]
    requires forall p: Id :: p in gs ==> p in paths && Storable(gs[p], p)
    ensures AllImport(paths, map[], AllGenerations(gs, order))
    ensures forall p: Id :: HistoryOf(ImportedAll(map[], AllGenerations(gs, order)), p) == HistoryOf(gs, p)
  {
    hide AllImport, ImportedAll, AllGenerations, Storable;
    assert forall i :: 0 <= i < |order| ==> order[i] in order;
    ImportsAll(paths, map[], gs, order);
    var end := ImportedAll(map[], AllGenerations(gs, order));
    forall p: Id
      ensures HistoryOf(end, p) == HistoryOf(gs, p)
    {
      if p in order {
        var i :| 0 <= i < |order| && order[i] == p;
      }
    }
  }

  /** Every history a run produces can be stored. */
  lemma RunStorable(sch: Scheme, path: Id, es: seq<Event>)
    requires |es| < MAX_ORDINAL
    ensures Storable(Retained(sch, path, es), path)
  {
    hide Log, Retained, GenerationId;
    RetainedIsRecentLog(sch, path, es);
    LogNumbered(sch, path, es);
  }

  /** Every event's text can be stored. */
  predicate TextsFit(es: seq<Event>) {
    forall i :: 0 <= i < |es| ==> |es[i].why| < 0x1_0000_0000
  }

  ghost predicate Legible(h: seq<Generation>) {
    forall i :: 0 <= i < |h| ==> |h[i].cause| < 0x1_0000_0000 && |h[i].closeReason| < 0x1_0000_0000
  }

  lemma {:induction false} LogLegible(sch: Scheme, path: Id, es: seq<Event>)
    requires TextsFit(es)
    ensures Legible(Log(sch, path, es))
  {
    hide Step, Legible;
    if es == [] {
      NothingLegible();
    } else {
      LogLegible(sch, path, es[..|es| - 1]);
      StepLegible(sch, path, Log(sch, path, es[..|es| - 1]), es[|es| - 1]);
    }
  }

  lemma NothingLegible()
    ensures Legible([])
  {
  }

  lemma StepLegible(sch: Scheme, path: Id, h: seq<Generation>, e: Event)
    requires Legible(h) && |e.why| < 0x1_0000_0000
    ensures Legible(Step(sch, path, h, e))
  {
    hide GenerationId, TopologyChanged;
    assert |TopologyChanged()| < 0x1_0000_0000 by {
      TopologyChangedIsShort();
    }
  }

  lemma TopologyChangedIsShort()
    ensures |TopologyChanged()| < 0x1_0000_0000
  {
  }

  /** What is stored of a run's history carries the derived identities, and its texts fit. */
  lemma RunSealed(sch: Scheme, path: Id, es: seq<Event>)
    requires |es| < MAX_ORDINAL && TextsFit(es)
    ensures var h := Retained(sch, path, es);
      && Legible(h)
      && forall i :: 0 <= i < |h| ==> h[i].id == GenerationId(sch, path, h[i].ordinal, h[i].topology)
  {
    hide Log, Retained, GenerationId;
    RetainedIsRecentLog(sch, path, es);
    LogNumbered(sch, path, es);
    LogLegible(sch, path, es);
  }
}
