/** Replay fencing: the per-source guard of src/source.cpp, as src/engine.cpp drives it. */
module Fencing {
  import opened CanonicalBytes

  // Where in a source's history a batch stands.
  datatype Position = Position(incarnation: U64, epoch: U64, sequence: U64)

  /** Lexicographic order: incarnation, then epoch, then sequence. */
  predicate Below(a: Position, b: Position) {
    a.incarnation < b.incarnation ||
    (a.incarnation == b.incarnation &&
     (a.epoch < b.epoch || (a.epoch == b.epoch && a.sequence < b.sequence)))
  }

  predicate AtMost(a: Position, b: Position) { a == b || Below(a, b) }

  datatype Guard = Guard(initialized: bool, position: Position, content: Digest)

  const UNSET: Guard := Guard(false, Position(0, 0, 0), ZERO_DIGEST)

  datatype Verdict =
    | Accept | DuplicateIdempotent | StaleIncarnation | StaleEpoch | StaleSequence
    | SequenceConflict | Historical

  function Evaluate(g: Guard, p: Position, content: Digest, historical: bool): Verdict {
    if historical then Historical
    else if !g.initialized then Accept
    else if p.incarnation < g.position.incarnation then StaleIncarnation
    else if p.incarnation > g.position.incarnation then Accept
    else if p.epoch < g.position.epoch then StaleEpoch
    else if p.epoch > g.position.epoch then Accept
    else if p.sequence > g.position.sequence then Accept
    else if p.sequence == g.position.sequence then
      if content == g.content then DuplicateIdempotent else SequenceConflict
    else StaleSequence
  }

  /** What apply_sequence leaves in the guard; it does not ask for the verdict. */
  function Applied(g: Guard, p: Position, content: Digest): Guard {
    if !g.initialized then Guard(true, p, content)
    else if p.incarnation > g.position.incarnation then Guard(true, p, content)
    else if p.epoch > g.position.epoch then
      Guard(true, Position(g.position.incarnation, p.epoch, p.sequence), content)
    else if p.sequence >= g.position.sequence then
      Guard(true, Position(g.position.incarnation, g.position.epoch, p.sequence), content)
    else g
  }

  class SourceGuard {
    var initialized: bool
    var incarnation: U64
    var epoch: U64
    var lastSequence: U64
    var lastContent: Digest

    function Value(): Guard
      reads this
    {
      Guard(initialized, Position(incarnation, epoch, lastSequence), lastContent)
    }

    constructor ()
      ensures Value() == UNSET
    {
      initialized := false;
      incarnation, epoch, lastSequence := 0, 0, 0;
      lastContent := ZERO_DIGEST;
    }

    method Apply(p: Position, content: Digest)
      modifies this
      ensures Value() == Applied(old(Value()), p, content)
    {
      if !initialized {
        initialized := true;
        incarnation := p.incarnation;
        epoch := p.epoch;
        lastSequence := p.sequence;
        lastContent := content;
        return;
      }
      if p.incarnation > incarnation {
        incarnation := p.incarnation;
        epoch := p.epoch;
        lastSequence := p.sequence;
        lastContent := content;
        return;
      }
      if p.epoch > epoch {
        epoch := p.epoch;
        lastSequence := p.sequence;
        lastContent := content;
        return;
      }
      if p.sequence >= lastSequence {
        lastSequence := p.sequence;
        lastContent := content;
      }
    }

    // The fencing slice of ingest: only an accepted batch whose samples were stored advances
    // the guard.
    method Ingest(b: Delivery) returns (verdict: Verdict)
      modifies this
      ensures verdict == Evaluate(old(Value()), b.position, b.content, b.historical)
      ensures Value() == Ingested(old(Value()), b)
    {
      verdict := Evaluate(Value(), b.position, b.content, b.historical);
      if verdict.Accept? && b.stored {
        Apply(b.position, b.content);
      }
    }
  }

  // ---------------------------------------------------------------------------
  // One batch
  // ---------------------------------------------------------------------------

  /** The verdict is the lexicographic comparison with the guard, split by content on equality. */
  lemma VerdictIsOrder(g: Guard, p: Position, content: Digest)
    requires g.initialized
    ensures var v := Evaluate(g, p, content, false);
      && (v.Accept? <==> Below(g.position, p))
      && (v.DuplicateIdempotent? <==> p == g.position && content == g.content)
      && (v.SequenceConflict? <==> p == g.position && content != g.content)
      && (v.StaleIncarnation? || v.StaleEpoch? || v.StaleSequence? <==> Below(p, g.position))
  {
  }

  /** A stale batch is named after the first component in which it is behind the guard; a batch marked
      historical is never measured against it, and before the first one everything is accepted. */
  lemma StaleNamesComponent(g: Guard, p: Position, content: Digest, historical: bool)
    ensures var v := Evaluate(g, p, content, historical);
      && (v.Historical? <==> historical)
      && (!historical && !g.initialized ==> v.Accept?)
      && (v.StaleIncarnation? || v.StaleEpoch? || v.StaleSequence? ==> !historical && Below(p, g.position))
      && (v.StaleIncarnation? ==> p.incarnation != g.position.incarnation)
      && (v.StaleEpoch? ==> p.incarnation == g.position.incarnation && p.epoch != g.position.epoch)
      && (v.StaleSequence? ==> p.incarnation == g.position.incarnation && p.epoch == g.position.epoch)
  {
  }

  /** apply_sequence keeps the larger position exactly when it is not handed one that is stale
      in incarnation or epoch and yet ahead in a lower component: there it mixes the two. */
  lemma AppliedIsMaximumIff(g: Guard, p: Position, content: Digest)
    requires g.initialized
    ensures Applied(g, p, content).position == (if Below(g.position, p) then p else g.position) <==>
      !(p.incarnation < g.position.incarnation && p.epoch > g.position.epoch)
      && !((p.incarnation < g.position.incarnation || p.epoch < g.position.epoch)
           && p.incarnation <= g.position.incarnation && p.epoch <= g.position.epoch
           && p.sequence > g.position.sequence)
  {
  }

  // ---------------------------------------------------------------------------
  // A stream of batches
  // ---------------------------------------------------------------------------

  datatype Delivery = Delivery(position: Position, content: Digest, historical: bool, stored: bool)

  function Ingested(g: Guard, b: Delivery): Guard {
    if Evaluate(g, b.position, b.content, b.historical).Accept? && b.stored then
      Applied(g, b.position, b.content)
    else g
  }

  function AfterAll(g: Guard, bs: seq<Delivery>): Guard {
    if bs == [] then g else Ingested(AfterAll(g, bs[..|bs| - 1]), bs[|bs| - 1])
  }

  /** The verdict batch i of a stream gets. */
  function VerdictAt(bs: seq<Delivery>, i: nat): Verdict
    requires i < |bs|
  {
    Evaluate(AfterAll(UNSET, bs[..i]), bs[i].position, bs[i].content, bs[i].historical)
  }

  /** Current batches that pass the admission checks. */
  ghost predicate Admitted(bs: seq<Delivery>) {
    forall i :: 0 <= i < |bs| ==> !bs[i].historical ==> bs[i].stored
  }

  /** Position p is the largest among the current batches of bs. */
  ghost predicate IsMaximum(bs: seq<Delivery>, p: Position) {
    && (exists i :: 0 <= i < |bs| && !bs[i].historical && bs[i].position == p)
    && (forall i :: 0 <= i < |bs| && !bs[i].historical ==> AtMost(bs[i].position, p))
  }

  ghost predicate AllHistorical(bs: seq<Delivery>) {
    forall i :: 0 <= i < |bs| ==> bs[i].historical
  }

  /** The guard stands at the maximum delivered, holding the content of its first arrival. */
  ghost predicate GuardIsMaximum(g: Guard, bs: seq<Delivery>) {
    if AllHistorical(bs) then g == UNSET
    else
      && g.initialized && IsMaximum(bs, g.position)
      && exists i :: 0 <= i < |bs| && !bs[i].historical && bs[i].position == g.position
           && bs[i].content == g.content
           && forall j :: 0 <= j < i && !bs[j].historical ==> bs[j].position != g.position
  }

  lemma {:induction false} GuardReached(bs: seq<Delivery>)
    requires Admitted(bs)
    ensures GuardIsMaximum(AfterAll(UNSET, bs), bs)
  {
    if bs != [] {
      var n := |bs| - 1;
      GuardReached(bs[..n]);
      GuardStep(AfterAll(UNSET, bs[..n]), bs[..n], bs[n]);
      assert bs == bs[..n] + [bs[n]];
    }
  }

  lemma GuardStep(g: Guard, bs: seq<Delivery>, b: Delivery)
    requires GuardIsMaximum(g, bs) && (b.historical || b.stored)
    ensures GuardIsMaximum(Ingested(g, b), bs + [b])
  {
    var all := bs + [b];
    var n := |bs|;
    assert all[n] == b;
    assert forall i :: 0 <= i < n ==> all[i] == bs[i];
    if AllHistorical(bs) {
      if b.historical {
        assert AllHistorical(all);
      } else {
        assert !AllHistorical(all);
      }
    } else {
      var k :| 0 <= k < n && !bs[k].historical && bs[k].position == g.position && bs[k].content == g.content
        && forall j :: 0 <= j < k && !bs[j].historical ==> bs[j].position != g.position;
      assert !all[k].historical;
      if !b.historical && Below(g.position, b.position) {
        assert Ingested(g, b) == Guard(true, b.position, b.content);
      } else {
        assert Ingested(g, b) == g;
      }
    }
  }

  /** Over a whole stream: a current batch is accepted exactly when its position is above that
      of every current batch delivered before it. */
  lemma AcceptedAreRunningMaxima(bs: seq<Delivery>, i: nat)
    requires Admitted(bs) && i < |bs| && !bs[i].historical
    ensures VerdictAt(bs, i).Accept? <==>
      forall j :: 0 <= j < i && !bs[j].historical ==> Below(bs[j].position, bs[i].position)
  {
    hide GuardIsMaximum, Evaluate, AfterAll;
    var before := bs[..i];
    GuardReached(before);
    MaximumDecides(AfterAll(UNSET, before), before, bs[i]);
    assert forall j :: 0 <= j < i ==> before[j] == bs[j];
  }

  lemma MaximumDecides(g: Guard, bs: seq<Delivery>, b: Delivery)
    requires GuardIsMaximum(g, bs)
    ensures Evaluate(g, b.position, b.content, false).Accept? <==>
      forall j :: 0 <= j < |bs| && !bs[j].historical ==> Below(bs[j].position, b.position)
  {
    if g.initialized {
      VerdictIsOrder(g, b.position, b.content);
      var k :| 0 <= k < |bs| && !bs[k].historical && bs[k].position == g.position;
    }
  }

  /** No position is accepted twice. */
  lemma AcceptedOnce(bs: seq<Delivery>, i: nat, j: nat)
    requires Admitted(bs) && i < j < |bs|
    requires VerdictAt(bs, i).Accept? && VerdictAt(bs, j).Accept?
    ensures Below(bs[i].position, bs[j].position)
  {
    AcceptedAreRunningMaxima(bs, j);
  }

  /** The final position does not depend on the order of delivery. */
  lemma OrderIrrelevant(bs: seq<Delivery>, cs: seq<Delivery>)
    requires Admitted(bs) && multiset(bs) == multiset(cs)
    ensures Admitted(cs)
    ensures AfterAll(UNSET, bs).initialized == AfterAll(UNSET, cs).initialized
    ensures AfterAll(UNSET, bs).position == AfterAll(UNSET, cs).position
  {
    SameMembers(bs, cs);
    SameMembers(cs, bs);
    GuardReached(bs);
    GuardReached(cs);
    if AllHistorical(bs) {
    } else {
      MaximumUnique(bs, cs, AfterAll(UNSET, bs).position, AfterAll(UNSET, cs).position);
    }
  }

  lemma SameMembers(bs: seq<Delivery>, cs: seq<Delivery>)
    requires multiset(bs) == multiset(cs)
    ensures forall i :: 0 <= i < |bs| ==> bs[i] in cs
  {
    forall i | 0 <= i < |bs|
      ensures bs[i] in cs
    {
      assert bs[i] in multiset(bs);
    }
  }

  lemma MaximumUnique(bs: seq<Delivery>, cs: seq<Delivery>, p: Position, q: Position)
    requires forall i :: 0 <= i < |bs| ==> bs[i] in cs
    requires forall i :: 0 <= i < |cs| ==> cs[i] in bs
    requires IsMaximum(bs, p) && IsMaximum(cs, q)
    ensures p == q
  {
    var i :| 0 <= i < |bs| && !bs[i].historical && bs[i].position == p;
    var j :| 0 <= j < |cs| && !cs[j].historical && cs[j].position == q;
    assert bs[i] in cs && cs[j] in bs;
    assert AtMost(p, q) && AtMost(q, p);
  }

  // ---------------------------------------------------------------------------
  // Restart
  // ---------------------------------------------------------------------------

  // What a restored sample says about its source.
  datatype Trace = Trace(source: Id, position: Position, content: Digest)

  /** The guard rebuilt from the samples of one source, in the order they are restored. */
  function Rebuilt(source: Id, ts: seq<Trace>): Guard {
    if ts == [] then UNSET
    else
      var g := Rebuilt(source, ts[..|ts| - 1]);
      var t := ts[|ts| - 1];
      if t.source == source then Applied(g, t.position, t.content) else g
  }

  /** The persisted guard replaces the rebuilt one unless its sequence number is smaller. */
  function Merged(rebuilt: Guard, persisted: Guard): Guard {
    if persisted.initialized
      && (!rebuilt.initialized || persisted.position.sequence >= rebuilt.position.sequence)
    then persisted else rebuilt
  }

  function GuardOf(gs: map<Id, Guard>, source: Id): Guard {
    if source in gs then gs[source] else UNSET
  }

  /** The persisted guards of a source merged in one after the other. */
  function MergedAll(rebuilt: Guard, source: Id, persisted: seq<(Id, Guard)>): Guard {
    if persisted == [] then rebuilt
    else
      var last := persisted[|persisted| - 1];
      var before := MergedAll(rebuilt, source, persisted[..|persisted| - 1]);
      if last.0 == source then Merged(before, last.1) else before
  }

  /** The guards a restart starts from: rebuilt sample by sample, then merged with the persisted
      ones. */
  method RestoreGuards(ts: seq<Trace>, persisted: seq<(Id, Guard)>) returns (guards: map<Id, Guard>)
    ensures forall source: Id :: GuardOf(guards, source) == MergedAll(Rebuilt(source, ts), source, persisted)
  {
    hide Applied;
    guards := map[];
    for i := 0 to |ts|
      invariant forall source: Id :: GuardOf(guards, source) == Rebuilt(source, ts[..i])
    {
      assert ts[..i + 1][..i] == ts[..i];
      var t := ts[i];
      guards := guards[t.source := Applied(GuardOf(guards, t.source), t.position, t.content)];
    }
    assert ts[..|ts|] == ts;
    for i := 0 to |persisted|
      invariant forall source: Id :: GuardOf(guards, source) == MergedAll(Rebuilt(source, ts), source, persisted[..i])
    {
      assert persisted[..i + 1][..i] == persisted[..i];
      var entry := persisted[i];
      if entry.1.initialized {
        var target := GuardOf(guards, entry.0);
        if !target.initialized || entry.1.position.sequence >= target.position.sequence {
          guards := guards[entry.0 := entry.1];
        } else {
          guards := guards[entry.0 := target];
        }
      }
    }
    assert persisted[..|persisted|] == persisted;
  }

  /** A source saved once merges with exactly that guard. */
  lemma {:induction false} MergedOnce(rebuilt: Guard, source: Id, persisted: seq<(Id, Guard)>, k: nat)
    requires k < |persisted| && persisted[k].0 == source
    requires forall i :: 0 <= i < |persisted| && i != k ==> persisted[i].0 != source
    ensures MergedAll(rebuilt, source, persisted) == Merged(rebuilt, persisted[k].1)
  {
    var n := |persisted| - 1;
    if k < n {
      MergedOnce(rebuilt, source, persisted[..n], k);
    } else {
      MergedNever(rebuilt, source, persisted[..n]);
    }
  }

  lemma {:induction false} MergedNever(rebuilt: Guard, source: Id, persisted: seq<(Id, Guard)>)
    requires forall i :: 0 <= i < |persisted| ==> persisted[i].0 != source
    ensures MergedAll(rebuilt, source, persisted) == rebuilt
  {
    if persisted != [] {
      MergedNever(rebuilt, source, persisted[..|persisted| - 1]);
    }
  }

  // ---------------------------------------------------------------------------
  // What the rebuilt guard is made of
  // ---------------------------------------------------------------------------

  /** The traces of one source, in order. */
  function Own(source: Id, ts: seq<Trace>): (own: seq<Trace>)
    ensures forall i :: 0 <= i < |own| ==> own[i].source == source && own[i] in ts
  {
    if ts == [] then []
    else Own(source, ts[..|ts| - 1]) + if ts[|ts| - 1].source == source then [ts[|ts| - 1]] else []
  }

  /** The first trace with the largest incarnation. */
  function TopIncarnation(own: seq<Trace>): (j: nat)
    requires own != []
    ensures j < |own| && FirstIncarnation(own, j)
  {
    var n := |own| - 1;
    if n == 0 then 0
    else
      var j := TopIncarnation(own[..n]);
      if own[n].position.incarnation > own[j].position.incarnation then n else j
  }

  predicate FirstIncarnation(own: seq<Trace>, j: nat)
    requires j < |own|
  {
    && (forall i :: 0 <= i < |own| ==> own[i].position.incarnation <= own[j].position.incarnation)
    && (forall i :: 0 <= i < j ==> own[i].position.incarnation < own[j].position.incarnation)
  }

  /** From trace j on, the first with the largest epoch. */
  function TopEpoch(own: seq<Trace>, j: nat): (k: nat)
    requires j < |own|
    ensures j <= k < |own| && FirstEpoch(own, j, k)
    decreases |own|
  {
    var n := |own| - 1;
    if n == j then j
    else
      var k := TopEpoch(own[..n], j);
      if own[n].position.epoch > own[k].position.epoch then n else k
  }

  predicate FirstEpoch(own: seq<Trace>, j: nat, k: nat)
    requires j <= k < |own|
  {
    && (forall i :: j <= i < |own| ==> own[i].position.epoch <= own[k].position.epoch)
    && (forall i :: j <= i < k ==> own[i].position.epoch < own[k].position.epoch)
  }

  /** The guard holds the incarnation of j, the epoch of k, and from k on the largest sequence number
      with the content of its last arrival. */
  ghost predicate SettledAt(own: seq<Trace>, j: nat, k: nat, g: Guard)
    requires j <= k < |own|
  {
    && g.initialized
    && g.position.incarnation == own[j].position.incarnation && g.position.epoch == own[k].position.epoch
    && exists i :: LastLargest(own, k, i, g)
  }

  ghost predicate LastLargest(own: seq<Trace>, k: nat, i: nat, g: Guard) {
    && k <= i < |own| && own[i].position.sequence == g.position.sequence && own[i].content == g.content
    && (forall m :: k <= m < |own| ==> own[m].position.sequence <= g.position.sequence)
    && (forall m :: i < m < |own| ==> own[m].position.sequence < g.position.sequence)
  }

  /** A guard in closed form: it mixes the largest incarnation, the largest epoch heard since that
      began, and the largest sequence number heard since that epoch, whatever incarnation the last
      two came with. */
  ghost predicate Settled(own: seq<Trace>, g: Guard) {
    if own == [] then g == UNSET
    else
      var j := TopIncarnation(own);
      SettledAt(own, j, TopEpoch(own, j), g)
  }

  lemma {:induction false} RebuiltClosed(source: Id, ts: seq<Trace>)
    ensures Settled(Own(source, ts), Rebuilt(source, ts))
  {
    hide Applied, Settled;
    if ts == [] {
      assert Settled([], UNSET) by { NothingSettled(); }
    } else {
      var n := |ts| - 1;
      RebuiltClosed(source, ts[..n]);
      if ts[n].source == source {
        Heard(Own(source, ts[..n]), Rebuilt(source, ts[..n]), ts[n]);
      } else {
        assert Own(source, ts) == Own(source, ts[..n]);
      }
    }
  }

  lemma NothingSettled()
    ensures Settled([], UNSET)
  {
  }

  lemma Heard(own: seq<Trace>, g: Guard, t: Trace)
    requires Settled(own, g)
    ensures Settled(own + [t], Applied(g, t.position, t.content))
  {
    hide FirstIncarnation, FirstEpoch;
    var all, n := own + [t], |own|;
    var h := Applied(g, t.position, t.content);
    assert all[..n] == own && all[n] == t;
    var j := TopIncarnation(all);
    var k := TopEpoch(all, j);
    if own == [] || t.position.incarnation > own[TopIncarnation(own)].position.incarnation {
      assert LastLargest(all, n, n, h);
    } else if t.position.epoch > own[TopEpoch(own, j)].position.epoch {
      assert LastLargest(all, n, n, h);
    } else {
      SequenceHeard(own, k, g, t);
    }
  }

  lemma SequenceHeard(own: seq<Trace>, k: nat, g: Guard, t: Trace)
    requires exists i :: LastLargest(own, k, i, g)
    ensures var h := if t.position.sequence >= g.position.sequence
        then g.(position := g.position.(sequence := t.position.sequence), content := t.content) else g;
      exists i :: LastLargest(own + [t], k, i, h)
  {
    var all := own + [t];
    if t.position.sequence >= g.position.sequence {
      assert LastLargest(all, k, |own|,
                         g.(position := g.position.(sequence := t.position.sequence), content := t.content));
    } else {
      var i :| LastLargest(own, k, i, g);
      assert LastLargest(all, k, i, g);
    }
  }

  /** From the largest epoch of the largest incarnation on, no trace carries a larger sequence
      number. */
  predicate NotAhead(own: seq<Trace>, sequence: U64) {
    own == [] || forall i :: TopEpoch(own, TopIncarnation(own)) <= i < |own| ==> own[i].position.sequence <= sequence
  }

  /** Exactly when a persisted guard survives, by the traces alone. */
  lemma GuardSurvivesIff(source: Id, ts: seq<Trace>, persisted: Guard)
    requires persisted.initialized
    ensures Merged(Rebuilt(source, ts), persisted) == persisted <==>
      NotAhead(Own(source, ts), persisted.position.sequence)
  {
    hide Own, Rebuilt, FirstIncarnation, FirstEpoch, TopEpoch, TopIncarnation;
    RebuiltClosed(source, ts);
  }

  /** Whether a position stays at or below the guard that a restart leaves. */
  predicate StillCovers(own: seq<Trace>, p: Position) {
    NotAhead(own, p.sequence) ||
    (var j := TopIncarnation(own);
     var incarnation, epoch := own[j].position.incarnation, own[TopEpoch(own, j)].position.epoch;
     incarnation > p.incarnation || (incarnation == p.incarnation && epoch >= p.epoch))
  }

  ghost predicate Covers(g: Guard, p: Position) {
    g.initialized && AtMost(p, g.position)
  }

  /** Exactly when the restart keeps fencing what the persisted guard fenced: unless it takes over a
      larger sequence number that was heard in an older incarnation or epoch. */
  lemma GuardCoversIff(source: Id, ts: seq<Trace>, persisted: Guard)
    requires persisted.initialized
    ensures Covers(Merged(Rebuilt(source, ts), persisted), persisted.position) <==>
      StillCovers(Own(source, ts), persisted.position)
  {
    hide Own, Rebuilt, FirstIncarnation, FirstEpoch, TopEpoch, TopIncarnation;
    RebuiltClosed(source, ts);
  }

  /** It does while a trace at the guard's own position is heard. */
  lemma OwnPositionCovers(own: seq<Trace>, p: Position, i: nat)
    requires i < |own| && own[i].position == p
    ensures StillCovers(own, p)
  {
    var j := TopIncarnation(own);
    var k := TopEpoch(own, j);
  }

  lemma {:induction false} RebuiltSequence(source: Id, ts: seq<Trace>, bound: U64)
    requires forall i :: 0 <= i < |ts| && ts[i].source == source ==> ts[i].position.sequence <= bound
    ensures Rebuilt(source, ts).position.sequence <= bound
  {
    if ts != [] {
      RebuiltSequence(source, ts[..|ts| - 1], bound);
    }
  }

  /** In particular it survives whenever no retained sample of the source carries a larger
      sequence number, and then every later batch gets the verdict it would have got. */
  lemma GuardSurvivesRestart(
    source: Id, ts: seq<Trace>, persisted: Guard, p: Position, content: Digest, historical: bool)
    requires persisted.initialized
    requires forall i :: 0 <= i < |ts| && ts[i].source == source ==>
      ts[i].position.sequence <= persisted.position.sequence
    ensures Merged(Rebuilt(source, ts), persisted) == persisted
    ensures Evaluate(Merged(Rebuilt(source, ts), persisted), p, content, historical) ==
      Evaluate(persisted, p, content, historical)
  {
    RebuiltSequence(source, ts, persisted.position.sequence);
  }

  /** Without that it can fail: a source that restarted its numbering in a new incarnation, with
      one sample of the old incarnation restored last, gets a guard that fences off its next
      batch although the guard saved for it would have accepted it. */
  lemma GuardLostAcrossIncarnations(source: Id, old_: Digest, fresh_: Digest, next: Digest)
    ensures var persisted := Guard(true, Position(2, 1, 1), fresh_);
      var ts := [Trace(source, Position(2, 1, 1), fresh_), Trace(source, Position(1, 1, 100), old_)];
      && Merged(Rebuilt(source, ts), persisted) == Guard(true, Position(2, 1, 100), old_)
      && Evaluate(persisted, Position(2, 1, 2), next, false) == Accept
      && Evaluate(Merged(Rebuilt(source, ts), persisted), Position(2, 1, 2), next, false) == StaleSequence
  {
    var first := Trace(source, Position(2, 1, 1), fresh_);
    var second := Trace(source, Position(1, 1, 100), old_);
    assert [first, second][..1] == [first];
    assert [first][..0] == [];
    assert Rebuilt(source, [first]) == Guard(true, Position(2, 1, 1), fresh_);
  }
}
