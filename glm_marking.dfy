/** The cluster-level filters of `GlmDataSet` that reject whole clusters by
    relabelling their detections with the bad cluster id: the duration
    filter, the redundancy filter and the cluster count. Each filter visits
    the distinct cluster ids in increasing order, skips the bad id and
    clusters without detections, and decides from the detections of the
    cluster alone. */
module GlmMarking {
  import opened ArrayOps
  import MathHelpers
  import UtilHelpers
  import GlmConfig

  /** The id given to detections removed from their cluster. */
  const BadClusterId: int := -1

  // ---------------------------------------------------------------------
  // count_clusters

  /** The distinct cluster ids other than the bad id. */
  function GoodIds(ids: seq<int>): set<int>
  {
    set k | 0 <= k < |ids| && ids[k] != BadClusterId :: ids[k]
  }

  function NotBad(ids: seq<int>): (m: seq<bool>)
    ensures |m| == |ids| && forall k :: 0 <= k < |ids| ==> (m[k] <==> ids[k] != BadClusterId)
  {
    seq(|ids|, k requires 0 <= k < |ids| => ids[k] != BadClusterId)
  }

  /** `count_clusters`: the number of distinct ids left after removing the
      bad id, which is the number of distinct good cluster ids. */
  function CountClusters(ids: seq<int>): (n: nat)
    ensures n == |GoodIds(ids)|
  {
    var u := Unique(Select(ids, NotBad(ids)));
    SelectMembers(ids, NotBad(ids));
    IncreasingDistinct(u);
    DistinctCard(u);
    assert (set x | x in u) == GoodIds(ids) by {
      forall x | x in GoodIds(ids) ensures x in u {
        var k :| 0 <= k < |ids| && ids[k] != BadClusterId && ids[k] == x;
      }
    }
    |u|
  }

  lemma {:induction false} DistinctCard(s: seq<int>)
    requires Distinct(s)
    ensures |s| == |set x | x in s|
  {
    if s != [] {
      var t := s[1..];
      assert Distinct(t);
      DistinctCard(t);
      assert (set x | x in s) == (set x | x in t) + {s[0]};
      assert s[0] !in t;
    }
  }

  /** A relabelling that only sends detections to the bad id never adds a
      cluster. */
  lemma MarkingNeverAddsClusters(ids: seq<int>, r: seq<int>)
    requires |r| == |ids|
    requires forall k :: 0 <= k < |ids| ==> r[k] == ids[k] || r[k] == BadClusterId
    ensures CountClusters(r) <= CountClusters(ids)
  {
    assert GoodIds(r) <= GoodIds(ids);
    SubsetCard(GoodIds(r), GoodIds(ids));
  }

  lemma SubsetCard(a: set<int>, b: set<int>)
    requires a <= b
    ensures |a| <= |b|
  {
    assert b == a + (b - a);
  }

  // ---------------------------------------------------------------------
  // The cluster loop shared by the filters

  /** Whether the filter marks detection `k`: `marks` receives a cluster id
      and the member mask of the cluster and answers with the detections of that cluster to
      relabel (an empty answer relabels none). */
  predicate MarkedAt(ids: seq<int>, marks: (int, seq<bool>) -> seq<bool>, k: nat)
    requires k < |ids|
  {
    ids[k] != BadClusterId && var m := marks(ids[k], EqualMask(ids, ids[k])); k < |m| && m[k]
  }

  /** The labels a filter leaves behind. */
  function Marked(ids: seq<int>, marks: (int, seq<bool>) -> seq<bool>): (r: seq<int>)
    ensures |r| == |ids|
  {
    seq(|ids|, k requires 0 <= k < |ids| => if MarkedAt(ids, marks, k) then BadClusterId else ids[k])
  }

  /** Every relabelling is to the bad id, and detections the filter does
      not mark keep their label. */
  lemma MarkedOnlyRemoves(ids: seq<int>, marks: (int, seq<bool>) -> seq<bool>)
    ensures forall k :: 0 <= k < |ids| ==> Marked(ids, marks)[k] == ids[k] || Marked(ids, marks)[k] == BadClusterId
    ensures forall k :: 0 <= k < |ids| && ids[k] == BadClusterId ==> Marked(ids, marks)[k] == BadClusterId
    ensures CountClusters(Marked(ids, marks)) <= CountClusters(ids)
  {
    MarkingNeverAddsClusters(ids, Marked(ids, marks));
  }

  /** The answer of `marks` for cluster `c`, restricted to its members. */
  function MarkMembers(r: seq<int>, m: seq<bool>, sel: seq<bool>): (t: seq<int>)
    requires |m| == |r|
    ensures |t| == |r|
    ensures forall k :: 0 <= k < |r| ==> t[k] == if m[k] && k < |sel| && sel[k] then BadClusterId else r[k]
  {
    seq(|r|, k requires 0 <= k < |r| => if m[k] && k < |sel| && sel[k] then BadClusterId else r[k])
  }

  /** The labels after the clusters in `done` have been visited. */
  predicate MarkedSoFar(ids: seq<int>, marks: (int, seq<bool>) -> seq<bool>, done: seq<int>, r: seq<int>)
  {
    |r| == |ids| &&
    forall k :: 0 <= k < |ids| ==> r[k] == if ids[k] in done && MarkedAt(ids, marks, k) then BadClusterId else ids[k]
  }

  /** Visiting cluster `c` extends the visited clusters by `c`. */
  lemma {:induction false} MarkStep(ids: seq<int>, marks: (int, seq<bool>) -> seq<bool>, done: seq<int>, c: int, r: seq<int>)
    requires MarkedSoFar(ids, marks, done, r) && c !in done
    ensures c != BadClusterId ==> EqualMask(r, c) == EqualMask(ids, c)
    ensures c != BadClusterId ==>
      MarkedSoFar(ids, marks, done + [c], MarkMembers(r, EqualMask(ids, c), marks(c, EqualMask(ids, c))))
    ensures c != BadClusterId && CountTrue(EqualMask(ids, c)) == 0 ==> MarkedSoFar(ids, marks, done + [c], r)
    ensures c == BadClusterId ==> MarkedSoFar(ids, marks, done + [c], r)
  {
    forall y ensures y in done + [c] <==> y in done || y == c {
      assert y in done + [c] <==> y in done || y in [c];
    }
    var m := EqualMask(ids, c);
    if c != BadClusterId {
      assert EqualMask(r, c) == m;
      if CountTrue(m) == 0 {
        assert Where(m) == [];
      }
    }
  }

  /** The loop over `np.unique(self.cluster_id)` shared by the filters: for
      each good cluster that still has detections, `marks` decides which of
      them become bad. */
  method MarkClusters(ids: seq<int>, marks: (int, seq<bool>) -> seq<bool>) returns (r: seq<int>)
    ensures r == Marked(ids, marks)
  {
    var us := Unique(ids);
    r := ids;
    for i := 0 to |us|
      invariant MarkedSoFar(ids, marks, us[..i], r)
    {
      var c := us[i];
      assert c !in us[..i] by {
        assert forall a :: 0 <= a < i ==> us[a] < us[i];
      }
      MarkStep(ids, marks, us[..i], c, r);
      assert us[..i + 1] == us[..i] + [c];
      if c != BadClusterId {
        var m := EqualMask(r, c);
        if CountTrue(m) != 0 {
          r := MarkMembers(r, m, marks(c, m));
        }
      }
    }
    assert us[..|us|] == us;
  }

  // ---------------------------------------------------------------------
  // mark_long_durations

  /** `np.ptp`: the spread of the selected values. */
  function Spread(xs: seq<real>, m: seq<bool>): real
    requires |xs| == |m|
  {
    var s := Select(xs, m);
    if |s| == 0 then 0.0 else MathHelpers.SeqMax(s) - MathHelpers.SeqMin(s)
  }

  /** The spread exceeds a limit exactly when two selected values are
      further apart than the limit. */
  lemma SpreadAbove(xs: seq<real>, m: seq<bool>, limit: real)
    requires |xs| == |m|
    ensures Spread(xs, m) > limit && limit >= 0.0 <==>
      limit >= 0.0 && exists a, b :: 0 <= a < |m| && 0 <= b < |m| && m[a] && m[b] && xs[a] - xs[b] > limit
  {
    var s := Select(xs, m);
    SelectMembers(xs, m);
    if Spread(xs, m) > limit && limit >= 0.0 {
      var hi := MathHelpers.SeqMax(s);
      var lo := MathHelpers.SeqMin(s);
      assert hi in s && lo in s;
      var a :| 0 <= a < |xs| && m[a] && hi == xs[a];
      var b :| 0 <= b < |xs| && m[b] && lo == xs[b];
      assert xs[a] - xs[b] > limit;
    }
    if limit >= 0.0 && exists a, b :: 0 <= a < |m| && 0 <= b < |m| && m[a] && m[b] && xs[a] - xs[b] > limit {
      var a, b :| 0 <= a < |m| && 0 <= b < |m| && m[a] && m[b] && xs[a] - xs[b] > limit;
      assert xs[a] in s && xs[b] in s;
      assert xs[a] <= MathHelpers.SeqMax(s) && MathHelpers.SeqMin(s) <= xs[b];
    }
  }

  /** The duration test: a cluster lasting longer than the limit is marked
      as a whole. */
  function LongMarks(times: seq<real>): (int, seq<bool>) -> seq<bool>
  {
    (_, m) => if |m| == |times| && Spread(times, m) > GlmConfig.ClusterDurationLimitS then m else []
  }

  /** `mark_long_durations`. */
  method MarkLongDurations(ids: seq<int>, times: seq<real>) returns (r: seq<int>)
    requires |ids| == |times|
    ensures r == Marked(ids, LongMarks(times))
  {
    r := MarkClusters(ids, LongMarks(times));
  }

  /** Two detections of cluster `c` lie further apart than the duration limit. */
  predicate LastsTooLong(ids: seq<int>, times: seq<real>, c: int)
    requires |ids| == |times|
  {
    exists a, b :: 0 <= a < |ids| && 0 <= b < |ids| && ids[a] == c && ids[b] == c &&
      times[a] - times[b] > GlmConfig.ClusterDurationLimitS
  }

  /** A detection becomes bad exactly when it was bad or its cluster has
      two detections more than the duration limit apart (a strict test);
      all detections of a cluster share the outcome. */
  lemma LongDurationsProps(ids: seq<int>, times: seq<real>, k: nat)
    requires |ids| == |times| && k < |ids|
    ensures var r := Marked(ids, LongMarks(times));
      (r[k] == BadClusterId <==> ids[k] == BadClusterId || LastsTooLong(ids, times, ids[k])) &&
      (r[k] != BadClusterId ==> r[k] == ids[k])
  {
    var m := EqualMask(ids, ids[k]);
    SpreadAbove(times, m, GlmConfig.ClusterDurationLimitS);
    if LastsTooLong(ids, times, ids[k]) {
      var a, b :| 0 <= a < |ids| && 0 <= b < |ids| && ids[a] == ids[k] && ids[b] == ids[k] &&
        times[a] - times[b] > GlmConfig.ClusterDurationLimitS;
      assert m[a] && m[b];
    }
  }

  /** Two detections of one cluster are marked together. */
  lemma WholeClusterMarked(ids: seq<int>, times: seq<real>, j: nat, k: nat)
    requires |ids| == |times| && j < |ids| && k < |ids| && ids[j] == ids[k]
    ensures var r := Marked(ids, LongMarks(times)); r[j] == r[k]
  {
  }

  // ---------------------------------------------------------------------
  // mark_redundant_clusters

  /** A detection time (seconds since the epoch) lies within the cluster
      time of the outer edges of the two loaded files; which edge is widened
      by half a file depends on the half the event falls in. */
  predicate OuterTime(t: real, latter: bool, filesStart: real, filesEnd: real)
  {
    if latter then
      t <= filesStart + GlmConfig.ClusterTimeS ||
      t >= filesEnd - GlmConfig.ProcessTimeSizeS / 2.0 - GlmConfig.ClusterTimeS
    else
      t <= filesStart + GlmConfig.ProcessTimeSizeS / 2.0 + GlmConfig.ClusterTimeS ||
      t >= filesEnd - GlmConfig.ClusterTimeS
  }

  function OuterMask(times: seq<real>, basetime: real, latter: bool, filesStart: real, filesEnd: real): (m: seq<bool>)
    ensures |m| == |times|
    ensures forall k :: 0 <= k < |times| ==> (m[k] <==> OuterTime(basetime + times[k], latter, filesStart, filesEnd))
  {
    seq(|times|, k requires 0 <= k < |times| => OuterTime(basetime + times[k], latter, filesStart, filesEnd))
  }

  /** `cluster_id[np.in1d(cluster_id, np.unique(cluster_id[are_outer]))] = BAD`. */
  function MarkOuter(ids: seq<int>, outer: seq<bool>): (r: seq<int>)
    requires |ids| == |outer|
    ensures |r| == |ids|
  {
    var os := Select(ids, outer);
    seq(|ids|, k requires 0 <= k < |ids| => if ids[k] in os then BadClusterId else ids[k])
  }

  /** A cluster with any detection at an outer edge becomes bad as a whole;
      every other detection keeps its label. */
  lemma MarkOuterProps(ids: seq<int>, outer: seq<bool>, k: nat)
    requires |ids| == |outer| && k < |ids|
    ensures var r := MarkOuter(ids, outer);
      r[k] == if exists j :: 0 <= j < |ids| && outer[j] && ids[j] == ids[k] then BadClusterId else ids[k]
  {
    SelectMembers(ids, outer);
  }

  /** The second pass: a cluster belongs to the file holding its start (in
      the latter half) or its end (otherwise), and the cluster of the file
      the event is not centred on is redundant. */
  function RedundantMarks(times: seq<real>, basetime: real, latter: bool, fileMid: real): (int, seq<bool>) -> seq<bool>
  {
    (_, m) =>
      if |m| != |times| then []
      else
        var s := Select(AddEach(times, basetime), m);
        if |s| == 0 then []
        else if latter then (if MathHelpers.SeqMin(s) >= fileMid + GlmConfig.ClusterTimeS then m else [])
        else (if MathHelpers.SeqMax(s) <= fileMid - GlmConfig.ClusterTimeS then m else [])
  }

  /** `basetime_ssue + time_s`. */
  function AddEach(xs: seq<real>, c: real): (r: seq<real>)
    ensures |r| == |xs| && forall k :: 0 <= k < |xs| ==> r[k] == c + xs[k]
  {
    seq(|xs|, k requires 0 <= k < |xs| => c + xs[k])
  }

  /** `mark_redundant_clusters`: outer-edge clusters first, then the
      clusters the other file is responsible for. */
  method MarkRedundantClusters(ids: seq<int>, times: seq<real>, basetime: real, eventTime: real,
                               filesStart: real, filesEnd: real) returns (r: seq<int>)
    requires |ids| == |times|
    ensures var latter := UtilHelpers.InGlmFileLatterHalf(eventTime);
      r == Marked(MarkOuter(ids, OuterMask(times, basetime, latter, filesStart, filesEnd)),
                  RedundantMarks(times, basetime, latter, (filesEnd + filesStart) / 2.0))
  {
    var latter := UtilHelpers.InGlmFileLatterHalf(eventTime);
    var outer := OuterMask(times, basetime, latter, filesStart, filesEnd);
    r := MarkOuter(ids, outer);
    var fileMid := (filesEnd + filesStart) / 2.0;
    r := MarkClusters(r, RedundantMarks(times, basetime, latter, fileMid));
  }

  /** In the second pass a good cluster is rejected exactly when, for an
      event in the latter half, none of its detections starts before the
      middle of the files plus the cluster time, or otherwise, none ends
      after the middle minus the cluster time. */
  lemma RedundantProps(ids: seq<int>, times: seq<real>, basetime: real, latter: bool, fileMid: real, k: nat)
    requires |ids| == |times| && k < |ids| && ids[k] != BadClusterId
    ensures var r := Marked(ids, RedundantMarks(times, basetime, latter, fileMid));
      r[k] == BadClusterId <==>
        if latter then forall j :: 0 <= j < |ids| && ids[j] == ids[k] ==> basetime + times[j] >= fileMid + GlmConfig.ClusterTimeS
        else forall j :: 0 <= j < |ids| && ids[j] == ids[k] ==> basetime + times[j] <= fileMid - GlmConfig.ClusterTimeS
  {
    var m := EqualMask(ids, ids[k]);
    var ts := AddEach(times, basetime);
    var s := Select(ts, m);
    SelectMembers(ts, m);
    assert ts[k] in s;
    var lo := MathHelpers.SeqMin(s);
    var hi := MathHelpers.SeqMax(s);
    assert lo in s && hi in s;
    var a :| 0 <= a < |ts| && m[a] && lo == ts[a];
    var b :| 0 <= b < |ts| && m[b] && hi == ts[b];
    forall j | 0 <= j < |ids| && ids[j] == ids[k] ensures lo <= ts[j] <= hi {
      assert ts[j] in s;
    }
  }
}
