/** Delta, quantile and smoothing estimators (src/metrics.cpp). Integer deltas are exact; the other
    estimators are over real numbers. */
module Metrics {
  import opened Errors
  import opened CanonicalBytes
  import opened Lists
  import opened Clocks

  const MAX_LATENCY_NS: int := 3_600_000_000_000

  // ---------------------------------------------------------------------------
  // Successive deltas
  // ---------------------------------------------------------------------------

  function Abs(x: int): nat {
    if x < 0 then -x else x
  }

  /** Exact differences of neighbours. */
  function Deltas(s: seq<int>): (d: seq<int>)
    ensures |d| == if |s| == 0 then 0 else |s| - 1
    ensures forall i :: 0 <= i < |d| ==> d[i] == Gap(s, i)
  {
    if |s| < 2 then [] else Deltas(s[..|s| - 1]) + [s[|s| - 1] - s[|s| - 2]]
  }

  function Magnitudes(s: seq<int>): seq<int> {
    seq(|s|, i requires 0 <= i < |s| => Abs(s[i]))
  }

  function Sum(s: seq<int>): int {
    if s == [] then 0 else Sum(s[..|s| - 1]) + s[|s| - 1]
  }

  function Gap(s: seq<int>, i: nat): int
    requires i + 1 < |s|
  {
    s[i + 1] - s[i]
  }

  ghost predicate DeltasFit(s: seq<int>) {
    forall i :: 0 <= i < |s| - 1 ==> InI64(Gap(s, i))
  }

  /** No neighbours differ by the one value whose magnitude does not fit 64 bits: negating it is
      undefined in the original. */
  ghost predicate DeltasNegate(s: seq<int>) {
    forall i :: 0 <= i < |s| - 1 ==> Gap(s, i) != I64_MIN
  }

  method SignedDeltas(ordered: seq<I64>) returns (r: Result<seq<I64>>)
    ensures |ordered| < 2 ==> r == Err(InsufficientEvidence)
    ensures |ordered| >= 2 ==> if DeltasFit(ordered) then r.Ok? && r.value == Deltas(ordered) else r == Err(Overflow)
  {
    if |ordered| < 2 {
      return Err(InsufficientEvidence);
    }
    var deltas: seq<I64> := [];
    for i := 1 to |ordered|
      invariant |deltas| == i - 1
      invariant forall j :: 0 <= j < i - 1 ==> deltas[j] == Gap(ordered, j) && InI64(Gap(ordered, j))
    {
      var delta := CheckedSub(ordered[i], ordered[i - 1]);
      if delta.None? {
        assert !InI64(Gap(ordered, i - 1));
        return Err(Overflow);
      }
      deltas := deltas + [delta.value];
    }
    r := Ok(deltas);
  }

  /** Negation on 64-bit words: the smallest value, whose negation the original leaves undefined, is
      its own. */
  function Negated(v: I64): I64 {
    if v == I64_MIN then v else 0 - v
  }

  method AbsoluteDeltas(ordered: seq<I64>) returns (r: Result<seq<I64>>)
    ensures |ordered| < 2 ==> r == Err(InsufficientEvidence)
    ensures |ordered| >= 2 && !DeltasFit(ordered) ==> r == Err(Overflow)
    ensures |ordered| >= 2 && DeltasFit(ordered) ==>
      && r.Ok? && |r.value| == |ordered| - 1
      && (forall i :: 0 <= i < |r.value| ==>
            r.value[i] == if Gap(ordered, i) == I64_MIN then I64_MIN else Abs(Gap(ordered, i)))
      && (r.value == Magnitudes(Deltas(ordered)) <==> DeltasNegate(ordered))
  {
    if |ordered| < 2 {
      return Err(InsufficientEvidence);
    }
    var deltas: seq<I64> := [];
    for i := 1 to |ordered|
      invariant |deltas| == i - 1
      invariant forall j :: 0 <= j < i - 1 ==> InI64(Gap(ordered, j))
      invariant forall j :: 0 <= j < i - 1 ==>
        deltas[j] == if Gap(ordered, j) == I64_MIN then I64_MIN else Abs(Gap(ordered, j))
    {
      var delta := CheckedSub(ordered[i], ordered[i - 1]);
      if delta.None? {
        assert !InI64(Gap(ordered, i - 1));
        return Err(Overflow);
      }
      deltas := deltas + [if delta.value < 0 then Negated(delta.value) else delta.value];
    }
    forall i | 0 <= i < |deltas|
      ensures deltas[i] == Magnitudes(Deltas(ordered))[i] <==> Gap(ordered, i) != I64_MIN
    {
    }
    r := Ok(deltas);
  }

  /** Readings a validated sample can carry never overflow a delta, nor its magnitude. */
  lemma ValidReadingsFit(s: seq<I64>)
    requires forall i :: 0 <= i < |s| ==> -MAX_LATENCY_NS <= s[i] <= MAX_LATENCY_NS
    ensures DeltasFit(s) && DeltasNegate(s)
  {
  }

  function Shifted(s: seq<int>, c: int): seq<int> {
    seq(|s|, i requires 0 <= i < |s| => s[i] + c)
  }

  /** Adding a constant to every reading leaves every delta unchanged. */
  lemma DeltasTranslate(s: seq<int>, c: int)
    ensures Deltas(Shifted(s, c)) == Deltas(s)
  {
    forall i | 0 <= i < |s| - 1
      ensures Deltas(Shifted(s, c))[i] == Deltas(s)[i]
    {
      assert Gap(Shifted(s, c), i) == Gap(s, i);
    }
  }

  /** Signed deltas telescope: between any two readings they add up to the difference. */
  lemma {:induction false} DeltasTelescope(s: seq<int>, i: nat, j: nat)
    requires i <= j < |s|
    ensures Sum(Deltas(s)[i..j]) == s[j] - s[i]
    decreases j - i
  {
    if i < j {
      DeltasTelescope(s, i, j - 1);
      assert Deltas(s)[i..j][..j - 1 - i] == Deltas(s)[i..j - 1];
    } else {
      assert Deltas(s)[i..j] == [];
    }
  }

  lemma SignedDeltasTelescope(s: seq<int>)
    requires |s| >= 1
    ensures Sum(Deltas(s)) == s[|s| - 1] - s[0]
  {
    DeltasTelescope(s, 0, |s| - 1);
    assert Deltas(s)[0..|s| - 1] == Deltas(s);
  }

  // ---------------------------------------------------------------------------
  // Peak to peak
  // ---------------------------------------------------------------------------

  ghost predicate IsPeakToPeak(s: seq<int>, r: int) {
    exists lo, hi :: Extremes(s, lo, hi) && r == s[hi] - s[lo]
  }

  ghost predicate Extremes(s: seq<int>, lo: int, hi: int) {
    0 <= lo < |s| && 0 <= hi < |s| && forall i :: 0 <= i < |s| ==> s[lo] <= s[i] <= s[hi]
  }

  // minmax_element: one pass, the first smallest and the last largest.
  method PeakToPeak(values: seq<int>) returns (r: int)
    ensures values == [] ==> r == 0
    ensures values != [] ==> IsPeakToPeak(values, r)
  {
    if values == [] {
      return 0;
    }
    var lo, hi := 0, 0;
    for i := 1 to |values|
      invariant 0 <= lo < i && 0 <= hi < i
      invariant forall j :: 0 <= j < i ==> values[lo] <= values[j] <= values[hi]
    {
      if values[i] < values[lo] {
        lo := i;
      }
      if values[i] >= values[hi] {
        hi := i;
      }
    }
    assert Extremes(values, lo, hi);
    r := values[hi] - values[lo];
  }

  lemma {:induction false} SumMagnitudes(s: seq<int>)
    ensures Sum(Magnitudes(s)) >= Abs(Sum(s)) && Sum(Magnitudes(s)) >= 0
  {
    if s != [] {
      SumMagnitudes(s[..|s| - 1]);
      assert Magnitudes(s)[..|s| - 1] == Magnitudes(s[..|s| - 1]);
    }
  }

  lemma {:induction false} SumConcat(a: seq<int>, b: seq<int>)
    ensures Sum(a + b) == Sum(a) + Sum(b)
  {
    if b == [] {
      assert a + b == a;
    } else {
      SumConcat(a, b[..|b| - 1]);
      assert (a + b)[..|a + b| - 1] == a + b[..|b| - 1];
    }
  }

  /** Any slice of the path is no longer than the whole. */
  lemma SumOfPart(s: seq<int>, i: nat, j: nat)
    requires i <= j <= |s|
    ensures Abs(Sum(s[i..j])) <= Sum(Magnitudes(s))
  {
    SumMagnitudes(s[..i]);
    SumMagnitudes(s[i..j]);
    SumMagnitudes(s[j..]);
    assert Magnitudes(s) == (Magnitudes(s[..i]) + Magnitudes(s[i..j])) + Magnitudes(s[j..]);
    SumConcat(Magnitudes(s[..i]) + Magnitudes(s[i..j]), Magnitudes(s[j..]));
    SumConcat(Magnitudes(s[..i]), Magnitudes(s[i..j]));
  }

  /** Two readings differ by no more than the sum of all absolute deltas. */
  lemma WithinPath(s: seq<int>, i: nat, j: nat)
    requires i < |s| && j < |s|
    ensures s[j] - s[i] <= Sum(Magnitudes(Deltas(s)))
  {
    hide Magnitudes, Sum;
    if i <= j {
      DeltasTelescope(s, i, j);
      SumOfPart(Deltas(s), i, j);
    } else {
      DeltasTelescope(s, j, i);
      SumOfPart(Deltas(s), j, i);
    }
  }

  /** Every delta is at most the peak to peak, and the peak to peak is at most the sum of all
      absolute deltas. */
  lemma DeltaBounds(s: seq<int>, r: int)
    requires IsPeakToPeak(s, r)
    ensures forall i :: 0 <= i < |s| - 1 ==> Abs(Deltas(s)[i]) <= r
    ensures r <= Sum(Magnitudes(Deltas(s)))
  {
    hide Magnitudes, Sum, Extremes;
    var lo, hi := FindExtremes(s, r);
    forall i | 0 <= i < |s| - 1
      ensures Abs(Deltas(s)[i]) <= r
    {
      DeltaWithin(s, lo, hi, i);
    }
    WithinPath(s, lo, hi);
  }

  lemma FindExtremes(s: seq<int>, r: int) returns (lo: nat, hi: nat)
    requires IsPeakToPeak(s, r)
    ensures lo < |s| && hi < |s| && Extremes(s, lo, hi) && r == s[hi] - s[lo]
  {
    var a, b :| Extremes(s, a, b) && r == s[b] - s[a];
    lo, hi := a, b;
  }

  lemma DeltaWithin(s: seq<int>, lo: nat, hi: nat, i: nat)
    requires lo < |s| && hi < |s| && Extremes(s, lo, hi) && i + 1 < |s|
    ensures Abs(Deltas(s)[i]) <= s[hi] - s[lo]
  {
    assert Deltas(s)[i] == Gap(s, i);
  }

  // ---------------------------------------------------------------------------
  // Exponentially weighted average, weight one sixteenth
  // ---------------------------------------------------------------------------

  function Ewma(s: seq<real>): real
    requires s != []
  {
    if |s| == 1 then s[0]
    else
      var before := Ewma(s[..|s| - 1]);
      before + (s[|s| - 1] - before) / 16.0
  }

  method Ewma16(deltas: seq<real>) returns (r: real)
    ensures r == if deltas == [] then 0.0 else Ewma(deltas)
  {
    if deltas == [] {
      return 0.0;
    }
    r := deltas[0];
    assert deltas[..1] == [deltas[0]];
    for i := 1 to |deltas|
      invariant r == Ewma(deltas[..i])
    {
      assert deltas[..i + 1][..i] == deltas[..i];
      r := r + 1.0 / 16.0 * (deltas[i] - r);
    }
    assert deltas[..|deltas|] == deltas;
  }

  /** The average stays between the smallest and the largest delta. */
  lemma {:induction false} EwmaBounded(s: seq<real>, lo: real, hi: real)
    requires s != [] && forall i :: 0 <= i < |s| ==> lo <= s[i] <= hi
    ensures lo <= Ewma(s) <= hi
  {
    if |s| > 1 {
      EwmaBounded(s[..|s| - 1], lo, hi);
    }
  }

  function Power(x: real, n: nat): (r: real)
    requires 0.0 <= x
    ensures 0.0 <= r
  {
    if n == 0 then 1.0 else x * Power(x, n - 1)
  }

  /** Changing one delta moves the average by that change, damped by fifteen sixteenths for each
      delta that follows. */
  lemma {:induction false} EwmaForgets(s: seq<real>, t: seq<real>, k: nat)
    requires |s| == |t| && 0 < k < |s| && forall i :: 0 <= i < |s| && i != k ==> s[i] == t[i]
    ensures Ewma(t) - Ewma(s) == (t[k] - s[k]) / 16.0 * Power(15.0 / 16.0, |s| - 1 - k)
  {
    var n := |s| - 1;
    if k == n {
      assert s[..n] == t[..n];
    } else {
      EwmaForgets(s[..n], t[..n], k);
      var d := (t[k] - s[k]) / 16.0;
      Damp(d, Power(15.0 / 16.0, n - 1 - k));
    }
  }

  lemma Damp(d: real, p: real)
    ensures d * p * (15.0 / 16.0) == d * (15.0 / 16.0 * p)
  {
  }

  // ---------------------------------------------------------------------------
  // Type 7 quantiles
  // ---------------------------------------------------------------------------

  predicate Smaller(a: real, b: real) { a < b }

  function Ascending(s: seq<real>): seq<real> {
    SortBy(Smaller, s)
  }

  ghost predicate NonDecreasing(s: seq<real>) {
    forall i, j :: 0 <= i <= j < |s| ==> s[i] <= s[j]
  }

  lemma SortsReals(s: seq<real>)
    ensures NonDecreasing(Ascending(s)) && |Ascending(s)| == |s| && multiset(Ascending(s)) == multiset(s)
  {
    SortSorted(Smaller, s);
    SortMembers(Smaller, s);
    assert forall i, j :: 0 <= i < j < |Ascending(s)| ==> !Smaller(Ascending(s)[j], Ascending(s)[i]);
  }

  lemma {:induction false} NonDecreasingUnique(s: seq<real>, t: seq<real>)
    requires NonDecreasing(s) && NonDecreasing(t) && multiset(s) == multiset(t)
    ensures s == t
  {
    hide NonDecreasing;
    if s == [] {
      assert |multiset(t)| == 0;
    } else {
      assert |multiset(s)| == |multiset(t)|;
      SmallestSame(s, t);
      assert s == [s[0]] + s[1..];
      assert t == [t[0]] + t[1..];
      assert multiset(s[1..]) == multiset(s) - multiset{s[0]};
      assert multiset(t[1..]) == multiset(t) - multiset{t[0]};
      TailNonDecreasing(s);
      TailNonDecreasing(t);
      NonDecreasingUnique(s[1..], t[1..]);
    }
  }

  lemma TailNonDecreasing(s: seq<real>)
    requires NonDecreasing(s) && s != []
    ensures NonDecreasing(s[1..])
  {
  }

  lemma SmallestSame(s: seq<real>, t: seq<real>)
    requires NonDecreasing(s) && NonDecreasing(t) && multiset(s) == multiset(t) && s != [] && t != []
    ensures s[0] == t[0]
  {
    assert s[0] in multiset(t) && t[0] in multiset(s);
  }

  /** The point a fraction f of the way from a to b. */
  function Mix(a: real, b: real, f: real): real {
    a + Times(f, b - a)
  }

  function Times(f: real, d: real): real { f * d }

  lemma MixBetween(a: real, b: real, f: real)
    requires a <= b && 0.0 <= f <= 1.0
    ensures a <= Mix(a, b, f) <= b
  {
    hide Times;
    Part(f, b - a);
  }

  lemma Part(f: real, d: real)
    requires 0.0 <= f <= 1.0 && 0.0 <= d
    ensures 0.0 <= Times(f, d) <= d
  {
    NotNegative(f, d);
    NotNegative(1.0 - f, d);
    assert (1.0 - f) * d == d - f * d;
  }

  lemma NotNegative(x: real, y: real)
    requires 0.0 <= x && 0.0 <= y
    ensures 0.0 <= x * y
  {
  }

  lemma Scale(f: real, g: real, d: real)
    requires f <= g && 0.0 <= d
    ensures Times(f, d) <= Times(g, d)
  {
    NotNegative(g - f, d);
    assert (g - f) * d == g * d - f * d;
  }

  lemma MixMonotone(a: real, b: real, f: real, g: real)
    requires a <= b && f <= g
    ensures Mix(a, b, f) <= Mix(a, b, g)
  {
    hide Times;
    Scale(f, g, b - a);
  }

  /** Linear interpolation at position x of a sorted sequence. */
  function At(s: seq<real>, x: real): real
    requires s != [] && 0.0 <= x
  {
    var lower := x.Floor;
    if lower + 1 >= |s| then s[|s| - 1] else Mix(s[lower], s[lower + 1], x - lower as real)
  }

  /** The fixed rank rule: p times one less than the number of values. */
  function RankOf(p: real, n: nat): (r: real)
    requires 0.0 <= p && n > 0
    ensures 0.0 <= r
  {
    Scale(0.0, p, (n - 1) as real);
    Times(p, (n - 1) as real)
  }

  lemma RankMonotone(p: real, q: real, n: nat)
    requires 0.0 <= p <= q && n > 0
    ensures RankOf(p, n) <= RankOf(q, n)
    ensures RankOf(0.0, n) == 0.0 && RankOf(1.0, n) == (n - 1) as real
  {
    Scale(p, q, (n - 1) as real);
  }

  function Quantile(values: seq<real>, p: real): real
    requires 0.0 <= p
  {
    if values == [] then 0.0
    else
      SortMembers(Smaller, values);
      At(Ascending(values), RankOf(p, |values|))
  }

  method QuantileOf(values: seq<real>, p: real) returns (q: real)
    requires 0.0 <= p
    ensures q == Quantile(values, p)
  {
    hide Ascending, RankOf, Mix;
    if values == [] {
      return 0.0;
    }
    SortsReals(values);
    var sorted := Ascending(values);
    var rank := RankOf(p, |values|);
    if |sorted| == 1 {
      return sorted[0];
    }
    var lower := rank.Floor;
    var fraction := rank - lower as real;
    if lower + 1 >= |sorted| {
      return sorted[|sorted| - 1];
    }
    q := Mix(sorted[lower], sorted[lower + 1], fraction);
  }

  /** A quantile depends only on which values there are. */
  lemma QuantilePermutes(s: seq<real>, t: seq<real>, p: real)
    requires multiset(s) == multiset(t) && 0.0 <= p
    ensures Quantile(s, p) == Quantile(t, p)
  {
    hide Ascending, RankOf, At, NonDecreasing;
    assert |multiset(s)| == |multiset(t)|;
    SortsReals(s);
    SortsReals(t);
    NonDecreasingUnique(Ascending(s), Ascending(t));
  }

  lemma AtBetween(s: seq<real>, x: real)
    requires NonDecreasing(s) && s != [] && 0.0 <= x
    ensures x.Floor < |s| ==> s[x.Floor] <= At(s, x)
    ensures x.Floor + 1 < |s| ==> At(s, x) <= s[x.Floor + 1]
    ensures s[0] <= At(s, x) <= s[|s| - 1]
  {
    hide Mix;
    var lower := x.Floor;
    if lower + 1 < |s| {
      MixBetween(s[lower], s[lower + 1], x - lower as real);
    }
  }

  lemma AtMonotone(s: seq<real>, x: real, y: real)
    requires NonDecreasing(s) && s != [] && 0.0 <= x <= y
    ensures At(s, x) <= At(s, y)
  {
    hide Mix;
    AtBetween(s, x);
    AtBetween(s, y);
    var lower := x.Floor;
    if lower == y.Floor {
      if lower + 1 < |s| {
        MixMonotone(s[lower], s[lower + 1], x - lower as real, y - lower as real);
      }
    } else if y.Floor < |s| {
      assert s[lower + 1] <= s[y.Floor];
    }
  }

  lemma AtEnds(s: seq<real>)
    requires s != []
    ensures At(s, 0.0) == s[0] && At(s, (|s| - 1) as real) == s[|s| - 1]
  {
  }

  /** Quantiles grow with p and stay between the smallest and the largest value, which are the
      quantiles at zero and one. */
  lemma QuantileMonotone(s: seq<real>, p: real, q: real)
    requires 0.0 <= p <= q && s != []
    ensures Quantile(s, p) <= Quantile(s, q)
    ensures Quantile(s, 0.0) <= Quantile(s, p) <= Quantile(s, 1.0)
    ensures Quantile(s, 0.0) in s && Quantile(s, 1.0) in s
    ensures forall i :: 0 <= i < |s| ==> Quantile(s, 0.0) <= s[i] <= Quantile(s, 1.0)
  {
    hide Ascending, RankOf, At;
    SortsReals(s);
    var sorted := Ascending(s);
    RankMonotone(p, q, |s|);
    AtMonotone(sorted, RankOf(p, |s|), RankOf(q, |s|));
    AtBetween(sorted, RankOf(p, |s|));
    AtEnds(sorted);
    assert sorted[0] in multiset(s) && sorted[|s| - 1] in multiset(s);
    forall i | 0 <= i < |s|
      ensures sorted[0] <= s[i] <= sorted[|s| - 1]
    {
      assert s[i] in multiset(sorted);
    }
  }

  /** Between the ranks k and k + 1 of n values the quantile moves in a straight line from the k-th
      smallest value to the next: a share of the way in rank is that share of the way in value. */
  lemma QuantileInterpolates(s: seq<real>, sorted: seq<real>, k: nat, share: real)
    requires multiset(sorted) == multiset(s) && NonDecreasing(sorted)
    requires k + 1 < |s| && 0.0 <= share <= 1.0
    ensures |sorted| == |s| && 0.0 <= (k as real + share) / (|s| - 1) as real
    ensures Quantile(s, (k as real + share) / (|s| - 1) as real) ==
      (1.0 - share) * sorted[k] + share * sorted[k + 1]
  {
    assert |multiset(sorted)| == |multiset(s)|;
    RankReached(k as real + share, |s|);
    hide Ascending, NonDecreasing, RankOf, At, Quantile;
    var p := (k as real + share) / (|s| - 1) as real;
    QuantileAt(s, sorted, p);
    Straight(sorted, k, share);
  }

  lemma QuantileAt(s: seq<real>, sorted: seq<real>, p: real)
    requires multiset(sorted) == multiset(s) && NonDecreasing(sorted) && s != [] && 0.0 <= p
    ensures sorted != [] && Quantile(s, p) == At(sorted, RankOf(p, |s|))
  {
    hide Ascending, NonDecreasing, RankOf, At;
    assert |multiset(sorted)| == |multiset(s)|;
    SortsReals(s);
    NonDecreasingUnique(Ascending(s), sorted);
  }

  lemma RankReached(x: real, n: nat)
    requires 0.0 <= x && n > 1
    ensures 0.0 <= x / (n - 1) as real && RankOf(x / (n - 1) as real, n) == x
  {
  }

  lemma Straight(s: seq<real>, k: nat, share: real)
    requires k + 1 < |s| && 0.0 <= share <= 1.0
    ensures At(s, k as real + share) == (1.0 - share) * s[k] + share * s[k + 1]
  {
    if share == 1.0 {
      assert (k as real + share).Floor == k + 1;
      assert Times(0.0, if k + 2 < |s| then s[k + 2] - s[k + 1] else 0.0) == 0.0;
    } else {
      assert (k as real + share).Floor == k;
    }
  }
}
