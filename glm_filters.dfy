/** The two list filters of `GlmDataSet` that take a list of cluster ids and
    return the ids that pass: the group-size filter, which rejects clusters
    whose most energetic detections sit in large groups, and the classifier
    filter, which rejects clusters whose bolide probability is low. Both
    visit the list in order, skip the bad id and clusters without
    detections, overwrite a rejected entry with the bad id, and finally drop
    every bad entry. */
module GlmFilters {
  import opened Wrappers
  import opened ArrayOps
  import MathHelpers
  import GlmConfig
  import GlmMarking
  import GlmStereo
  import GlmPosition
  import GlmVelocity
  import GlmRank

  /** The percentile of a satellite's energies above which detections count as high. */
  const EnergyPercentCap: nat := 90

  /** A group with more events than this is large. */
  const GroupSizeMin: nat := 5

  /** A cluster whose share of large groups exceeds this is rejected. */
  const GroupSizeMetricThreshold: real := 0.20

  // ---------------------------------------------------------------------
  // The list filter shared by omit_large_group_size_clusters and rocket_filter

  /** The entries that survive: good ids that `rejects` does not reject. */
  function KeepMask(cs: seq<int>, rejects: int -> bool): (m: seq<bool>)
    ensures |m| == |cs| && forall i :: 0 <= i < |cs| ==> (m[i] <==> cs[i] != GlmMarking.BadClusterId && !rejects(cs[i]))
  {
    seq(|cs|, i requires 0 <= i < |cs| => cs[i] != GlmMarking.BadClusterId && !rejects(cs[i]))
  }

  /** The list a filter returns. */
  function KeptClusters(cs: seq<int>, rejects: int -> bool): seq<int>
  {
    Select(cs, KeepMask(cs, rejects))
  }

  /** An id is returned exactly when it is listed, good, and not rejected. */
  lemma KeptClustersMembers(cs: seq<int>, rejects: int -> bool, c: int)
    ensures c in KeptClusters(cs, rejects) <==> c in cs && c != GlmMarking.BadClusterId && !rejects(c)
  {
    var m := KeepMask(cs, rejects);
    SelectMembers(cs, m);
    if c in cs && c != GlmMarking.BadClusterId && !rejects(c) {
      var k :| 0 <= k < |cs| && cs[k] == c;
      assert m[k];
    }
  }

  /** The returned ids keep their order in the list: the k-th of them comes
      from a position of the list after that of the one before. */
  lemma KeptClustersInOrder(cs: seq<int>, rejects: int -> bool)
    ensures var w := Where(KeepMask(cs, rejects));
      |KeptClusters(cs, rejects)| == |w| &&
      (forall j :: 0 <= j < |w| ==> KeptClusters(cs, rejects)[j] == cs[w[j]]) &&
      forall a, b :: 0 <= a < b < |w| ==> w[a] < w[b]
  {
    SelectAtWhere(cs, KeepMask(cs, rejects));
  }

  /** A list position after the first pass: the bad id when rejected. */
  function Flag(c: int, rejects: int -> bool): int
  {
    if c != GlmMarking.BadClusterId && rejects(c) then GlmMarking.BadClusterId else c
  }

  /** Two selections agree when their masks agree and the values agree where selected. */
  lemma {:induction false} SelectAgree(xs: seq<int>, mx: seq<bool>, ys: seq<int>, my: seq<bool>)
    requires |xs| == |mx| == |ys| == |my|
    requires forall i :: 0 <= i < |xs| ==> (mx[i] <==> my[i]) && (mx[i] ==> xs[i] == ys[i])
    ensures Select(xs, mx) == Select(ys, my)
  {
    if xs != [] {
      var n := |xs| - 1;
      SelectAgree(xs[..n], mx[..n], ys[..n], my[..n]);
    }
  }

  /** The loop of a list filter: overwrite every rejected good id with the
      bad id, then keep only the entries that are not bad. */
  method RejectClusters(cs: seq<int>, rejects: int -> bool) returns (r: seq<int>)
    ensures r == KeptClusters(cs, rejects)
  {
    var marked := cs;
    for i := 0 to |cs|
      invariant |marked| == |cs|
      invariant forall j :: 0 <= j < i ==> marked[j] == Flag(cs[j], rejects)
      invariant forall j :: i <= j < |cs| ==> marked[j] == cs[j]
    {
      var c := cs[i];
      if c != GlmMarking.BadClusterId && rejects(c) {
        marked := marked[i := GlmMarking.BadClusterId];
      }
    }
    SelectAgree(marked, GlmMarking.NotBad(marked), cs, KeepMask(cs, rejects));
    r := Select(marked, GlmMarking.NotBad(marked));
  }

  // ---------------------------------------------------------------------
  // np.percentile with linear interpolation

  /** The lower order statistic `np.percentile(xs, 90)` interpolates from:
      the integer part of 0.9 (n - 1) (the 90 is `EnergyPercentCap`). */
  function PercentileLow(n: nat): (lo: nat)
    requires n > 0
    ensures lo < n
  {
    (90 * (n - 1)) / 100
  }

  /** The upper order statistic, the next one when it exists. */
  function PercentileHigh(n: nat): (hi: nat)
    requires n > 0
    ensures PercentileLow(n) <= hi < n
  {
    if PercentileLow(n) + 1 < n then PercentileLow(n) + 1 else n - 1
  }

  /** The fractional part of 0.9 (n - 1), the interpolation weight. */
  function PercentileWeight(n: nat): (f: real)
    requires n > 0
    ensures 0.0 <= f < 1.0
  {
    ((90 * (n - 1)) % 100) as real / 100.0
  }

  /** `np.percentile(xs, 90)`: linear interpolation between the two
      neighbouring order statistics. The result lies between them, so no
      value at or below the lower order statistic exceeds it and none at or
      above the upper one falls below it. */
  function Percentile90(xs: seq<real>): (p: real)
    requires |xs| > 0
    ensures var s, n := GlmRank.SortedValues(xs), |xs|;
      (forall i :: 0 <= i <= PercentileLow(n) ==> s[i] <= p) &&
      forall i :: PercentileHigh(n) <= i < n ==> p <= s[i]
  {
    var s, n := GlmRank.SortedValues(xs), |xs|;
    var lo, hi, f := PercentileLow(n), PercentileHigh(n), PercentileWeight(n);
    var p := Interpolate(s[lo], s[hi], f);
    SortedAround(s, lo, hi, p);
    p
  }

  /** Linear interpolation with weight `f` stays between its end points. */
  function Interpolate(a: real, b: real, f: real): (p: real)
    requires a <= b && 0.0 <= f <= 1.0
    ensures a <= p <= b
  {
    var d := b - a;
    assert f * d >= 0.0;
    assert d - f * d == (1.0 - f) * d;
    assert (1.0 - f) * d >= 0.0;
    a + f * d
  }

  /** A value between two entries of a sorted list is above everything up
      to the first and below everything from the second on. */
  lemma SortedAround(s: seq<real>, lo: nat, hi: nat, p: real)
    requires GlmRank.Sorted(s) && lo <= hi < |s| && s[lo] <= p <= s[hi]
    ensures forall i :: 0 <= i <= lo ==> s[i] <= p
    ensures forall i :: hi <= i < |s| ==> p <= s[i]
  {
  }

  /** The percentile lies between the smallest and the largest value, so
      the values strictly above it never include the smallest. */
  lemma PercentileWithinValues(xs: seq<real>)
    requires |xs| > 0
    ensures exists a :: 0 <= a < |xs| && xs[a] <= Percentile90(xs)
    ensures exists b :: 0 <= b < |xs| && Percentile90(xs) <= xs[b]
  {
    var order := ArgSort(xs);
    var s := GlmRank.SortedValues(xs);
    ArgSortPermutation(xs);
    assert s[0] == xs[order[0]];
    assert s[|xs| - 1] == xs[order[|xs| - 1]];
  }

  // ---------------------------------------------------------------------
  // omit_large_group_size_clusters

  /** The detections of the cluster seen by satellite `s`. */
  function SatSelection(d: GlmStereo.Detections, m: seq<bool>, s: int): (sel: seq<bool>)
    requires d.Valid() && |m| == |d.sat|
    ensures |sel| == |m| && forall k :: 0 <= k < |m| ==> (sel[k] <==> m[k] && d.sat[k] == s)
  {
    And(m, EqualMask(d.sat, s))
  }

  /** The 90th percentile of the energies of satellite `s` in the cluster. */
  function SatPercentile(d: GlmStereo.Detections, m: seq<bool>, s: int): real
    requires d.Valid() && |m| == |d.sat| && CountTrue(SatSelection(d, m, s)) > 0
  {
    var sel := SatSelection(d, m, s);
    SelectAtWhere(d.energy, sel);
    Percentile90(Select(d.energy, sel))
  }

  /** The positions of the detections of satellite `s` in the cluster whose
      energy is strictly above that satellite's 90th percentile, in
      increasing order. */
  function HighEnergyPoints(d: GlmStereo.Detections, m: seq<bool>, s: int): (r: seq<nat>)
    requires d.Valid() && |m| == |d.sat| && CountTrue(SatSelection(d, m, s)) > 0
    ensures forall i :: 0 <= i < |r| ==> r[i] < |m|
    ensures forall k: int :: k in r <==> 0 <= k < |m| && m[k] && d.sat[k] == s && d.energy[k] > SatPercentile(d, m, s)
  {
    var sel := SatSelection(d, m, s);
    var p := SatPercentile(d, m, s);
    var high := seq(|m|, k requires 0 <= k < |m| => sel[k] && d.energy[k] > p);
    Where(high)
  }

  /** Which of the points belong to a group with more than `GroupSizeMin` events. */
  function LargeGroups(d: GlmStereo.Detections, parents: seq<int>, pts: seq<nat>): (r: seq<bool>)
    requires d.Valid() && forall i :: 0 <= i < |pts| ==> pts[i] < |d.sat|
    ensures |r| == |pts| && forall i :: 0 <= i < |pts| ==> (r[i] <==> GlmVelocity.GroupSize(parents, d.group[pts[i]]) > GroupSizeMin)
  {
    seq(|pts|, i requires 0 <= i < |pts| => GlmVelocity.GroupSize(parents, d.group[pts[i]]) > GroupSizeMin)
  }

  /** The share `c / n` of a non-empty list: positive exactly when `c` is. */
  function Share(c: nat, n: nat): (q: real)
    requires c <= n && n > 0
    ensures 0.0 <= q <= 1.0
    ensures q > 0.0 <==> c > 0
  {
    var q := c as real / n as real;
    assert q * n as real == c as real;
    q
  }

  /** A mask selects something exactly when one of its entries is true. */
  lemma SomeTrue(mask: seq<bool>)
    ensures CountTrue(mask) > 0 <==> exists i :: 0 <= i < |mask| && mask[i]
  {
    if CountTrue(mask) == 0 {
      MaskEmpty(mask);
    } else {
      var i := Where(mask)[0];
      assert mask[i];
    }
  }

  /** The metric of satellite `s`: the share of its high-energy detections
      whose group has more than `GroupSizeMin` events, and 0 when the
      satellite has no detection or none above its percentile. It is
      positive exactly when some high-energy detection is in a large group. */
  function SatGroupMetric(d: GlmStereo.Detections, parents: seq<int>, m: seq<bool>, s: int): (r: real)
    requires d.Valid() && |m| == |d.sat|
    ensures 0.0 <= r <= 1.0
    ensures r > 0.0 <==> (CountTrue(SatSelection(d, m, s)) > 0 &&
                          var pts := HighEnergyPoints(d, m, s);
                          exists i :: 0 <= i < |pts| && GlmVelocity.GroupSize(parents, d.group[pts[i]]) > GroupSizeMin)
  {
    if CountTrue(SatSelection(d, m, s)) == 0 then 0.0
    else
      var pts := HighEnergyPoints(d, m, s);
      if |pts| == 0 then 0.0
      else
        var big := LargeGroups(d, parents, pts);
        SomeTrue(big);
        Share(CountTrue(big), |pts|)
  }

  /** The metric of every satellite of the cluster, in increasing satellite order. */
  function SatGroupMetrics(d: GlmStereo.Detections, parents: seq<int>, m: seq<bool>): (r: seq<real>)
    requires d.Valid() && |m| == |d.sat|
    ensures var us := Unique(Select(d.sat, m));
      |r| == |us| && forall i :: 0 <= i < |us| ==> r[i] == SatGroupMetric(d, parents, m, us[i])
  {
    var us := Unique(Select(d.sat, m));
    seq(|us|, i requires 0 <= i < |us| => SatGroupMetric(d, parents, m, us[i]))
  }

  /** Whether `omit_large_group_size_clusters` rejects cluster `c`: it has
      detections and the largest of its satellite metrics is above the
      threshold. */
  predicate LargeGroupRejects(d: GlmStereo.Detections, parents: seq<int>, ids: seq<int>, c: int)
  {
    d.Valid() && |ids| == |d.sat| &&
    var m := EqualMask(ids, c);
    CountTrue(m) > 0 &&
    (GlmPosition.NonEmptyHasSatellite(Select(d.sat, m));
     MathHelpers.SeqMax(SatGroupMetrics(d, parents, m)) > GroupSizeMetricThreshold)
  }

  /** Whether a satellite's metric is above the threshold. */
  predicate LargeGroupSat(d: GlmStereo.Detections, parents: seq<int>, m: seq<bool>, s: int)
    requires d.Valid() && |m| == |d.sat|
  {
    SatGroupMetric(d, parents, m, s) > GroupSizeMetricThreshold
  }

  /** A cluster is rejected exactly when it has detections and one of its
      satellites has a metric above the threshold. */
  lemma {:induction false} LargeGroupRejectsProps(d: GlmStereo.Detections, parents: seq<int>, ids: seq<int>, c: int)
    requires d.Valid() && |ids| == |d.sat|
    ensures var m := EqualMask(ids, c);
      var us := Unique(Select(d.sat, m));
      LargeGroupRejects(d, parents, ids, c) <==>
        CountTrue(m) > 0 && exists i :: 0 <= i < |us| && LargeGroupSat(d, parents, m, us[i])
  {
    var m := EqualMask(ids, c);
    GlmPosition.NonEmptyHasSatellite(Select(d.sat, m));
    var us := Unique(Select(d.sat, m));
    var ms := SatGroupMetrics(d, parents, m);
    assert forall i :: 0 <= i < |us| ==> (ms[i] > GroupSizeMetricThreshold <==> LargeGroupSat(d, parents, m, us[i]));
    if |ms| > 0 {
      MaxAbove(ms, GroupSizeMetricThreshold);
    }
  }

  /** A satellite above the threshold has a high-energy detection in a
      group of more than `GroupSizeMin` events. */
  lemma LargeGroupSatHasLargeGroup(d: GlmStereo.Detections, parents: seq<int>, m: seq<bool>, s: int)
    requires d.Valid() && |m| == |d.sat| && LargeGroupSat(d, parents, m, s)
    ensures CountTrue(SatSelection(d, m, s)) > 0
    ensures exists k :: k in HighEnergyPoints(d, m, s) && GlmVelocity.GroupSize(parents, d.group[k]) > GroupSizeMin
  {
    var pts := HighEnergyPoints(d, m, s);
    var i :| 0 <= i < |pts| && GlmVelocity.GroupSize(parents, d.group[pts[i]]) > GroupSizeMin;
    assert pts[i] in pts;
  }

  /** `omit_large_group_size_clusters`. */
  method OmitLargeGroupSizeClusters(d: GlmStereo.Detections, parents: seq<int>, ids: seq<int>, cs: seq<int>) returns (r: seq<int>)
    ensures r == KeptClusters(cs, c => LargeGroupRejects(d, parents, ids, c))
  {
    r := RejectClusters(cs, c => LargeGroupRejects(d, parents, ids, c));
  }

  // ---------------------------------------------------------------------
  // rocket_filter

  /** The detections of satellite `s` in the cluster that are energy peaks
      and fit: the series handed to the classifier. */
  function RocketSelection(d: GlmStereo.Detections, m: seq<bool>, s: int): (sel: seq<bool>)
    requires d.Valid() && |m| == |d.sat|
    ensures |sel| == |m| && forall k :: 0 <= k < |m| ==>
      (sel[k] <==> m[k] && d.sat[k] == s && d.fitness[k] == 1 && d.highest[k] == 1)
  {
    seq(|m|, k requires 0 <= k < |m| => m[k] && d.sat[k] == s && d.fitness[k] == 1 && d.highest[k] == 1)
  }

  /** The bolide probability of satellite `s`: the classifier applied to the
      energies and cloud-top latitudes and longitudes of its series, and
      nothing when the series is empty. `classify` stands for the
      down-sampling, standardisation and classifier pipeline. */
  function SatBolideProb(d: GlmStereo.Detections, m: seq<bool>, s: int,
                         classify: (seq<real>, seq<real>, seq<real>) -> real): (r: Option<real>)
    requires d.Valid() && |m| == |d.sat|
    ensures r.None? <==> CountTrue(RocketSelection(d, m, s)) == 0
  {
    var sel := RocketSelection(d, m, s);
    if CountTrue(sel) == 0 then None
    else Some(classify(Select(d.energy, sel), Select(d.lat, sel), Select(d.lon, sel)))
  }

  /** A satellite's metric: its probability, or 0 when it was skipped. */
  function MetricOf(p: Option<real>): real
  {
    match p
    case None => 0.0
    case Some(v) => v
  }

  /** The metric of every satellite of the cluster, in increasing satellite order. */
  function SatBolideMetrics(d: GlmStereo.Detections, m: seq<bool>, classify: (seq<real>, seq<real>, seq<real>) -> real): (r: seq<real>)
    requires d.Valid() && |m| == |d.sat|
    ensures var us := Unique(Select(d.sat, m));
      |r| == |us| && forall i :: 0 <= i < |us| ==> r[i] == MetricOf(SatBolideProb(d, m, us[i], classify))
  {
    var us := Unique(Select(d.sat, m));
    seq(|us|, i requires 0 <= i < |us| => MetricOf(SatBolideProb(d, m, us[i], classify)))
  }

  /** Whether `rocket_filter` rejects cluster `c`: it has detections and the
      largest satellite metric is below the probability threshold. */
  predicate RocketRejects(d: GlmStereo.Detections, ids: seq<int>, classify: (seq<real>, seq<real>, seq<real>) -> real, c: int)
  {
    d.Valid() && |ids| == |d.sat| &&
    var m := EqualMask(ids, c);
    CountTrue(m) > 0 &&
    (GlmPosition.NonEmptyHasSatellite(Select(d.sat, m));
     MathHelpers.SeqMax(SatBolideMetrics(d, m, classify)) < GlmConfig.TriggerProbThreshold)
  }

  /** A skipped satellite, or one whose probability is below the threshold. */
  predicate Unlikely(p: Option<real>)
  {
    p.None? || p.value < GlmConfig.TriggerProbThreshold
  }

  /** The largest of the values is below a bound exactly when all are. */
  lemma MaxBelow(xs: seq<real>, t: real)
    requires |xs| > 0
    ensures MathHelpers.SeqMax(xs) < t <==> forall i :: 0 <= i < |xs| ==> xs[i] < t
  {
  }

  /** The largest of the values is above a bound exactly when one is. */
  lemma MaxAbove(xs: seq<real>, t: real)
    requires |xs| > 0
    ensures MathHelpers.SeqMax(xs) > t <==> exists i :: 0 <= i < |xs| && xs[i] > t
  {
  }

  /** A cluster with detections is rejected exactly when every satellite
      was skipped or has a probability below the threshold; in particular
      it is rejected when no satellite has a series to classify. */
  lemma {:induction false} RocketRejectsProps(d: GlmStereo.Detections, ids: seq<int>, classify: (seq<real>, seq<real>, seq<real>) -> real, c: int)
    requires d.Valid() && |ids| == |d.sat|
    ensures var m := EqualMask(ids, c);
      var us := Unique(Select(d.sat, m));
      RocketRejects(d, ids, classify, c) <==>
        CountTrue(m) > 0 && forall i :: 0 <= i < |us| ==> Unlikely(SatBolideProb(d, m, us[i], classify))
  {
    var m := EqualMask(ids, c);
    GlmPosition.NonEmptyHasSatellite(Select(d.sat, m));
    var us := Unique(Select(d.sat, m));
    var ms := SatBolideMetrics(d, m, classify);
    assert forall i :: 0 <= i < |us| ==>
      (ms[i] < GlmConfig.TriggerProbThreshold <==> Unlikely(SatBolideProb(d, m, us[i], classify)));
    if |ms| > 0 {
      MaxBelow(ms, GlmConfig.TriggerProbThreshold);
    }
  }

  /** `rocket_filter`, without the probabilities it records. */
  method RocketFilter(d: GlmStereo.Detections, ids: seq<int>, cs: seq<int>,
                      classify: (seq<real>, seq<real>, seq<real>) -> real) returns (r: seq<int>)
    ensures r == KeptClusters(cs, c => RocketRejects(d, ids, classify, c))
  {
    r := RejectClusters(cs, c => RocketRejects(d, ids, classify, c));
  }

  /** Whether `rocket_filter` records a probability under the key (cluster,
      satellite): a good listed cluster, one of its satellites, with a series. */
  predicate Scored(d: GlmStereo.Detections, ids: seq<int>, cs: seq<int>,
                   classify: (seq<real>, seq<real>, seq<real>) -> real, key: (int, int))
  {
    d.Valid() && |ids| == |d.sat| &&
    key.0 != GlmMarking.BadClusterId && key.0 in cs &&
    key.1 in Select(d.sat, EqualMask(ids, key.0)) &&
    SatBolideProb(d, EqualMask(ids, key.0), key.1, classify).Some?
  }

  /** The `self.rocket_prob[f"{cluster_id}_{sat_id}"]` writes of `rocket_filter`:
      every scored pair gets its probability and every other entry is kept. */
  method StoreRocketProbs(store: map<(int, int), real>, d: GlmStereo.Detections, ids: seq<int>, cs: seq<int>,
                          classify: (seq<real>, seq<real>, seq<real>) -> real) returns (r: map<(int, int), real>)
    ensures forall key :: key in r <==> key in store || Scored(d, ids, cs, classify, key)
    ensures forall key :: key in r ==>
      r[key] == if Scored(d, ids, cs, classify, key) then SatBolideProb(d, EqualMask(ids, key.0), key.1, classify).value else store[key]
  {
    r := store;
    if !(d.Valid() && |ids| == |d.sat|) {
      return;
    }
    for i := 0 to |cs|
      invariant forall key :: key in r <==> key in store || (key.0 in cs[..i] && Scored(d, ids, cs, classify, key))
      invariant forall key :: key in r ==>
        r[key] == if key.0 in cs[..i] && Scored(d, ids, cs, classify, key)
                  then SatBolideProb(d, EqualMask(ids, key.0), key.1, classify).value else store[key]
    {
      var c := cs[i];
      PrefixStep(cs, i);
      if c != GlmMarking.BadClusterId {
        r := StoreClusterProbs(r, store, d, ids, cs, classify, cs[..i], c);
      }
    }
    PrefixAll(cs);
  }

  /** The inner loop of `StoreRocketProbs`, over the satellites of cluster `c`. */
  method StoreClusterProbs(r0: map<(int, int), real>, store: map<(int, int), real>, d: GlmStereo.Detections,
                           ids: seq<int>, cs: seq<int>, classify: (seq<real>, seq<real>, seq<real>) -> real,
                           done: seq<int>, c: int) returns (r: map<(int, int), real>)
    requires d.Valid() && |ids| == |d.sat| && c != GlmMarking.BadClusterId && c in cs
    requires forall key :: key in r0 <==> key in store || (key.0 in done && Scored(d, ids, cs, classify, key))
    requires forall key :: key in r0 ==>
      r0[key] == if key.0 in done && Scored(d, ids, cs, classify, key)
                 then SatBolideProb(d, EqualMask(ids, key.0), key.1, classify).value else store[key]
    ensures forall key :: key in r <==> key in store || ((key.0 in done || key.0 == c) && Scored(d, ids, cs, classify, key))
    ensures forall key :: key in r ==>
      r[key] == if (key.0 in done || key.0 == c) && Scored(d, ids, cs, classify, key)
                then SatBolideProb(d, EqualMask(ids, key.0), key.1, classify).value else store[key]
  {
    var m := EqualMask(ids, c);
    var us := Unique(Select(d.sat, m));
    r := r0;
    for j := 0 to |us|
      invariant forall key :: key in r <==> (key in store ||
                                             ((key.0 in done || (key.0 == c && key.1 in us[..j])) && Scored(d, ids, cs, classify, key)))
      invariant forall key :: key in r ==>
        r[key] == if (key.0 in done || (key.0 == c && key.1 in us[..j])) && Scored(d, ids, cs, classify, key)
                  then SatBolideProb(d, EqualMask(ids, key.0), key.1, classify).value else store[key]
    {
      var s := us[j];
      PrefixStep(us, j);
      var p := SatBolideProb(d, m, s, classify);
      if p.Some? {
        r := r[(c, s) := p.value];
      }
    }
    PrefixAll(us);
  }
}
