/** Observations and the orders the engine sorts them by (include/jitter/sample.hpp). */
module Samples {
  import opened CanonicalBytes
  import opened Lists

  datatype TimePoint = TimePoint(domain: Id, ticks: I64)

  datatype Provenance = Provenance(
    source: Id, incarnation: U64, epoch: U64, sequence: U64, authority: Byte, origin: Byte, ingestPath: Bytes)

  datatype HopTiming = HopTiming(hop: Id, arrived: TimePoint)

  datatype Entry = Entry(key: Bytes, value: Bytes)

  datatype Sample = Sample(
    id: Id, series: Id, path: Id, generation: Id, generationOrdinal: U64, provenance: Provenance,
    latencyNs: I64, observedAt: TimePoint, receivedAt: TimePoint,
    hopTimings: seq<HopTiming>, metadata: seq<Entry>, content: Digest)

  // ---------------------------------------------------------------------------
  // Byte order
  // ---------------------------------------------------------------------------

  predicate LexLess(a: Bytes, b: Bytes) {
    if b == [] then false
    else if a == [] then true
    else a[0] < b[0] || (a[0] == b[0] && LexLess(a[1..], b[1..]))
  }

  lemma {:induction false} LexTotal(a: Bytes, b: Bytes)
    ensures LexLess(a, b) || a == b || LexLess(b, a)
    ensures !(LexLess(a, b) && LexLess(b, a))
    ensures !LexLess(a, a)
  {
    if a != [] && b != [] {
      LexTotal(a[1..], b[1..]);
      if a[0] == b[0] && a[1..] == b[1..] {
        assert a == [a[0]] + a[1..];
        assert b == [b[0]] + b[1..];
      }
    }
    if a != [] {
      LexIrreflexive(a);
    }
  }

  lemma {:induction false} LexIrreflexive(a: Bytes)
    ensures !LexLess(a, a)
  {
    if a != [] {
      LexIrreflexive(a[1..]);
    }
  }

  lemma {:induction false} LexTransitive(a: Bytes, b: Bytes, c: Bytes)
    requires LexLess(a, b) && LexLess(b, c)
    ensures LexLess(a, c)
  {
    if a != [] {
      if a[0] == b[0] && b[0] == c[0] {
        LexTransitive(a[1..], b[1..], c[1..]);
      }
    }
  }

  /** a and b agree before place k, and there a ends or has the smaller byte. */
  predicate FirstDifference(a: Bytes, b: Bytes, k: nat) {
    && k <= |a| && k < |b| && a[..k] == b[..k] && (k == |a| || a[k] < b[k])
  }

  /** Byte order: the first difference decides, and a proper prefix comes before what it starts. */
  lemma {:induction false} LexLessMeans(a: Bytes, b: Bytes)
    ensures LexLess(a, b) <==> exists k: nat :: FirstDifference(a, b, k)
  {
    if a == [] || b == [] {
      assert b != [] ==> FirstDifference([], b, 0);
    } else {
      LexLessMeans(a[1..], b[1..]);
      if a[0] < b[0] {
        assert FirstDifference(a, b, 0);
      }
      if a[0] == b[0] {
        if k: nat :| FirstDifference(a[1..], b[1..], k) {
          assert a[..k + 1] == [a[0]] + a[1..][..k] && b[..k + 1] == [b[0]] + b[1..][..k];
          assert FirstDifference(a, b, k + 1);
        }
      }
      if k: nat :| FirstDifference(a, b, k) {
        if k > 0 {
          assert a[0] == a[..k][0] == b[..k][0] == b[0];
          assert a[1..][..k - 1] == a[..k][1..] && b[1..][..k - 1] == b[..k][1..];
          assert FirstDifference(a[1..], b[1..], k - 1);
        }
      }
    }
  }

  // ---------------------------------------------------------------------------
  // The canonical order: observation time, source sequence, identity
  // ---------------------------------------------------------------------------

  predicate Less(a: Sample, b: Sample) {
    if a.observedAt.ticks != b.observedAt.ticks then a.observedAt.ticks < b.observedAt.ticks
    else if a.provenance.sequence != b.provenance.sequence then a.provenance.sequence < b.provenance.sequence
    else LexLess(a.id, b.id)
  }

  lemma LessTotal(a: Sample, b: Sample)
    ensures a.id != b.id ==> Less(a, b) || Less(b, a)
    ensures !(Less(a, b) && Less(b, a))
  {
    LexTotal(a.id, b.id);
  }

  lemma LessTransitive(a: Sample, b: Sample, c: Sample)
    requires Less(a, b) && Less(b, c)
    ensures Less(a, c)
  {
    if LexLess(a.id, b.id) && LexLess(b.id, c.id) {
      LexTransitive(a.id, b.id, c.id);
    }
  }

  /** Identities are unique within the list. */
  ghost predicate DistinctIds(s: seq<Sample>) {
    forall i, j :: 0 <= i < j < |s| ==> s[i].id != s[j].id
  }

  ghost predicate Ascending(s: seq<Sample>) {
    forall i, j :: 0 <= i < j < |s| ==> Less(s[i], s[j])
  }

  // ---------------------------------------------------------------------------
  // Sorting
  // ---------------------------------------------------------------------------

  /** The samples in canonical order. */
  function Canonical(s: seq<Sample>): seq<Sample> {
    SortBy(Less, s)
  }

  lemma {:induction false} InsertAscending(x: Sample, s: seq<Sample>)
    requires Ascending(s) && forall i :: 0 <= i < |s| ==> s[i].id != x.id
    ensures Ascending(Insert(Less, x, s))
  {
    hide Less;
    if s == [] {
    } else if Less(x, s[0]) {
      forall i | 0 < i < |s|
        ensures Less(x, s[i])
      {
        LessTransitive(x, s[0], s[i]);
      }
    } else {
      LessTotal(x, s[0]);
      InsertAscending(x, s[1..]);
      BelowInserted(s[0], x, s[1..]);
      PrependAscending(s[0], Insert(Less, x, s[1..]));
    }
  }

  lemma BelowInserted(a: Sample, x: Sample, s: seq<Sample>)
    requires Less(a, x) && forall i :: 0 <= i < |s| ==> Less(a, s[i])
    ensures var t := Insert(Less, x, s); forall i :: 0 <= i < |t| ==> Less(a, t[i])
  {
    hide Less, Insert;
    var t := Insert(Less, x, s);
    InsertMembers(Less, x, s);
    forall i | 0 <= i < |t|
      ensures Less(a, t[i])
    {
      assert t[i] in multiset(t);
      assert t[i] == x || t[i] in s;
    }
  }

  lemma PrependAscending(a: Sample, t: seq<Sample>)
    requires Ascending(t) && forall i :: 0 <= i < |t| ==> Less(a, t[i])
    ensures Ascending([a] + t)
  {
    hide Less;
  }

  lemma {:induction false} CanonicalAscending(s: seq<Sample>)
    requires DistinctIds(s)
    ensures Ascending(Canonical(s))
  {
    hide Less, Insert;
    if s != [] {
      CanonicalAscending(s[1..]);
      var t := Canonical(s[1..]);
      SortMembers(Less, s[1..]);
      forall i | 0 <= i < |t|
        ensures t[i].id != s[0].id
      {
        assert t[i] in multiset(t);
        assert t[i] in s[1..];
      }
      InsertAscending(s[0], t);
    }
  }

  /** An ascending list is determined by its members. */
  lemma {:induction false} AscendingUnique(s: seq<Sample>, t: seq<Sample>)
    requires Ascending(s) && Ascending(t) && multiset(s) == multiset(t)
    ensures s == t
  {
    hide Less;
    if s == [] {
      assert |multiset(t)| == 0;
    } else {
      assert |multiset(s)| == |multiset(t)|;
      SmallestFirst(s, t);
      assert s == [s[0]] + s[1..];
      assert t == [t[0]] + t[1..];
      assert multiset(s[1..]) == multiset(s) - multiset{s[0]};
      assert multiset(t[1..]) == multiset(t) - multiset{t[0]};
      AscendingUnique(s[1..], t[1..]);
    }
  }

  lemma SmallestFirst(s: seq<Sample>, t: seq<Sample>)
    requires Ascending(s) && Ascending(t) && multiset(s) == multiset(t) && s != [] && t != []
    ensures s[0] == t[0]
  {
    hide Less;
    assert s[0] in multiset(t) && t[0] in multiset(s);
    var i :| 0 <= i < |t| && t[i] == s[0];
    var j :| 0 <= j < |s| && s[j] == t[0];
    if i > 0 && j > 0 {
      LessTotal(s[0], t[0]);
    }
  }

  /** The canonical order depends only on which samples there are. */
  lemma CanonicalOfSame(s: seq<Sample>, t: seq<Sample>)
    requires multiset(s) == multiset(t) && DistinctIds(s) && DistinctIds(t)
    ensures Canonical(s) == Canonical(t)
  {
    CanonicalAscending(s);
    CanonicalAscending(t);
    SortMembers(Less, s);
    SortMembers(Less, t);
    AscendingUnique(Canonical(s), Canonical(t));
  }

  lemma DistinctOfSame(s: seq<Sample>, t: seq<Sample>)
    requires multiset(s) == multiset(t) && DistinctIds(s)
    ensures DistinctIds(t)
  {
    forall i, j | 0 <= i < j < |t|
      ensures t[i].id != t[j].id
    {
      assert t[i] in multiset(s) && t[j] in multiset(s);
      var a :| 0 <= a < |s| && s[a] == t[i];
      var b :| 0 <= b < |s| && s[b] == t[j];
      CountedOnce(s, a);
      if t[i] == t[j] {
        CountedTwice(t, i, j);
      }
    }
  }

  lemma CountedOnce(s: seq<Sample>, a: nat)
    requires DistinctIds(s) && a < |s|
    ensures multiset(s)[s[a]] == 1
  {
    assert s == s[..a] + [s[a]] + s[a + 1..];
    assert s[a] !in s[..a] && s[a] !in s[a + 1..];
  }

  lemma CountedTwice(t: seq<Sample>, i: nat, j: nat)
    requires i < j < |t| && t[i] == t[j]
    ensures multiset(t)[t[i]] >= 2
  {
    assert t == t[..i] + [t[i]] + t[i + 1..];
    assert t[i + 1..][j - i - 1] == t[j];
    assert t[j] in multiset(t[i + 1..]);
  }

  /** In canonical order no sample was observed before an earlier one; among those observed at one
      instant no sequence number is below an earlier one, and among those of one instant and one
      number the identities climb. */
  lemma CanonicalOrder(s: seq<Sample>, i: nat, j: nat)
    requires DistinctIds(s) && i < j < |Canonical(s)|
    ensures var a, b := Canonical(s)[i], Canonical(s)[j];
      && a.observedAt.ticks <= b.observedAt.ticks
      && (a.observedAt.ticks == b.observedAt.ticks ==>
            && a.provenance.sequence <= b.provenance.sequence
            && (a.provenance.sequence == b.provenance.sequence ==> LexLess(a.id, b.id)))
  {
    hide LexLess, Canonical;
    CanonicalAscending(s);
    assert Less(Canonical(s)[i], Canonical(s)[j]);
  }
}
