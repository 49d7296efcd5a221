/** What the metrics are computed from: the readings of the samples a window of the running engine
    retains and selects (src/engine.cpp, src/metrics.cpp). */
module IngestReadings {
  import opened CanonicalBytes
  import opened Samples
  import Lists
  import C = SampleCodec
  import I = Ingest
  import M = Metrics
  import V = Window

  function Readings(samples: seq<Sample>): (r: seq<I64>)
    ensures |r| == |samples|
  {
    seq(|samples|, i requires 0 <= i < |samples| => samples[i].latencyNs)
  }

  lemma OneBoundForBoth()
    ensures C.MAX_LATENCY_NS == M.MAX_LATENCY_NS
  {
  }

  /** Whatever was delivered, what the engine retains is well formed, so the deltas of any readings taken
      from one window, and their magnitudes, are computed exactly: no jitter metric of a
      running engine ever fails by overflow. */
  lemma RetainedReadingsFit(c: I.Config, ds: seq<I.Delivery>, k: V.WindowKey, taken: seq<Sample>)
    requires k in I.Run(c, ds).windows
    requires forall i :: 0 <= i < |taken| ==> taken[i] in I.Run(c, ds).windows[k].samples
    ensures forall i :: 0 <= i < |taken| ==> C.WellFormed(c.sch, taken[i])
    ensures M.DeltasFit(Readings(taken)) && M.DeltasNegate(Readings(taken))
  {
    hide I.Run, C.WellFormed, C.SampleRefusal, M.DeltasFit, M.DeltasNegate, I.CameWith;
    OneBoundForBoth();
    forall i | 0 <= i < |taken|
      ensures C.WellFormed(c.sch, taken[i])
      ensures -M.MAX_LATENCY_NS <= Readings(taken)[i] <= M.MAX_LATENCY_NS
    {
      var j := I.RetainsDelivered(c, ds, k, taken[i]);
      C.AcceptedIff(c.sch, taken[i]);
      WithinBound(c, taken[i]);
    }
    M.ValidReadingsFit(Readings(taken));
  }

  lemma WithinBound(c: I.Config, s: Sample)
    requires C.WellFormed(c.sch, s)
    ensures -C.MAX_LATENCY_NS <= s.latencyNs <= C.MAX_LATENCY_NS
  {
  }

  /** In particular those of what the window selects. */
  lemma SelectedReadingsFit(c: I.Config, ds: seq<I.Delivery>, k: V.WindowKey)
    requires V.ValidPolicy(c.policy) && k in I.Run(c, ds).windows
    ensures var readings := Readings(V.Selected(c.policy, I.Run(c, ds).windows[k].samples));
      M.DeltasFit(readings) && M.DeltasNegate(readings)
  {
    hide I.Run, V.Selected, M.DeltasFit, M.DeltasNegate, C.WellFormed;
    var w := I.Run(c, ds).windows[k].samples;
    SelectedAreRetained(c.policy, w);
    RetainedReadingsFit(c, ds, k, V.Selected(c.policy, w));
  }

  lemma SelectedAreRetained(p: V.WindowPolicy, s: seq<Sample>)
    requires V.ValidPolicy(p)
    ensures forall i :: 0 <= i < |V.Selected(p, s)| ==> V.Selected(p, s)[i] in s
  {
    CanonicalKeepsMembers(s);
    hide Canonical;
    if !p.kind.Count? && Canonical(s) != [] {
      KeptAreMembers(p, V.NewestOf(Canonical(s)), Canonical(s));
    }
    forall i | 0 <= i < |V.Selected(p, s)|
      ensures V.Selected(p, s)[i] in s
    {
      assert V.Selected(p, s)[i] in Canonical(s);
    }
  }

  lemma CanonicalKeepsMembers(s: seq<Sample>)
    ensures forall x :: x in Canonical(s) <==> x in s
  {
    Lists.SortMembers(Less, s);
    forall x
      ensures x in Canonical(s) <==> x in s
    {
      assert x in s <==> x in multiset(s);
    }
  }

  lemma {:induction false} KeptAreMembers(p: V.WindowPolicy, newest: int, s: seq<Sample>)
    requires p.durationNs > 0
    ensures forall i :: 0 <= i < |V.KeptOf(p, newest, s)| ==> V.KeptOf(p, newest, s)[i] in s
  {
    hide V.Kept;
    if s != [] {
      KeptAreMembers(p, newest, s[1..]);
    }
  }
}
