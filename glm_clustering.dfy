/** `GlmDataSet.cluster_glm_data`: incremental space-time clustering of the
    detections' lines of sight. Detections are visited in order of time; an
    unassigned detection opens a new cluster, and every later detection close
    enough in time, inside a rough latitude/longitude box and within the
    clustering distance joins the current cluster, bringing its whole cluster
    along. */
module GlmClustering {
  import opened ArrayOps

  const RoughLatDistanceFactor: real := 3.0
  const RoughLonDistanceFactor: real := 7.5
  /** Metres per degree of latitude. */
  const DlatDistM: real := 111000.0

  /** What the clustering reads about each detection: its time and the
      latitude and longitude of its cloud-top point. */
  datatype Points = Points(time: seq<real>, lat: seq<real>, lon: seq<real>)

  predicate WellFormed(p: Points)
  {
    |p.time| == |p.lat| == |p.lon|
  }

  /** The clustering limits. `latHalf` is the rough half-height of the box in
      degrees (`rough_lat_deg`, which `RoughLatDeg` computes from the
      clustering distance), `lonHalf(lat)` its half-width at a latitude
      (`rough_lon_deg`: RoughLonDistanceFactor times the clustering distance
      over the cosine of the latitude times DlatDistM, so it is a parameter),
      and `apart(w, c)` says that the shortest distance between the lines of
      sight of `w` and `c` exceeds the clustering distance. */
  datatype Limits = Limits(timeDistance: real, latHalf: real, lonHalf: real -> real,
                           apart: (nat, nat) -> bool)

  /** The rough latitude half-height for a clustering distance. */
  function RoughLatDeg(clusterDistanceM: real): (r: real)
    ensures clusterDistanceM >= 0.0 ==> r >= 0.0
  {
    RoughLatDistanceFactor * clusterDistanceM / DlatDistM
  }

  /** Detection `k` lies in the comparison window of detection `c`: no
      earlier than `c` and at most `timeDistance` later, and inside the rough
      box around `c`. */
  predicate InBox(p: Points, q: Limits, c: nat, k: nat)
    requires WellFormed(p) && c < |p.time| && k < |p.time|
  {
    p.time[c] <= p.time[k] <= p.time[c] + q.timeDistance &&
    p.lat[c] - q.latHalf <= p.lat[k] <= p.lat[c] + q.latHalf &&
    p.lon[c] - q.lonHalf(p.lat[c]) <= p.lon[k] <= p.lon[c] + q.lonHalf(p.lat[c])
  }

  /** `c` and `k` pass the clustering test when `c` is visited. */
  predicate Linked(p: Points, q: Limits, c: nat, k: nat)
    requires WellFormed(p) && c < |p.time| && k < |p.time|
  {
    InBox(p, q, c, k) && !q.apart(k, c)
  }

  /** The indices below `n` compared with `c`: inside its window and not
      already in its cluster, in increasing order. */
  function WindowUpTo(ids: seq<int>, p: Points, q: Limits, c: nat, n: nat): (ws: seq<nat>)
    requires WellFormed(p) && |ids| == |p.time| && c < |ids| && n <= |ids|
    ensures forall j :: 0 <= j < |ws| ==> ws[j] < n
    ensures forall k :: 0 <= k < n && InBox(p, q, c, k) && ids[k] != ids[c] ==> k in ws
  {
    if n == 0 then []
    else
      var ws := WindowUpTo(ids, p, q, c, n - 1);
      ws + (if InBox(p, q, c, n - 1) && ids[n - 1] != ids[c] then [n - 1] else [])
  }

  /** The indices compared with `c`. */
  function Window(ids: seq<int>, p: Points, q: Limits, c: nat): (ws: seq<nat>)
    requires WellFormed(p) && |ids| == |p.time| && c < |ids|
    ensures forall j :: 0 <= j < |ws| ==> ws[j] < |ids|
    ensures forall k :: 0 <= k < |ids| && InBox(p, q, c, k) && ids[k] != ids[c] ==> k in ws
  {
    WindowUpTo(ids, p, q, c, |ids|)
  }

  /** `cluster_id[cluster_id == x] = cur`. */
  function Relabel(ids: seq<int>, x: int, cur: int): (r: seq<int>)
    ensures |r| == |ids|
    ensures forall k :: 0 <= k < |ids| ==> r[k] == if ids[k] == x then cur else ids[k]
  {
    seq(|ids|, k requires 0 <= k < |ids| => if ids[k] == x then cur else ids[k])
  }

  /** One comparison of the inner loop: when `w` is close enough to `c`, it
      joins the current cluster `cur`, with every member of its own cluster
      when it has one. */
  function MergeOne(ids: seq<int>, q: Limits, c: nat, w: nat, cur: int): (r: seq<int>)
    requires w < |ids|
    ensures |r| == |ids|
  {
    if q.apart(w, c) then ids
    else if ids[w] > 0 then Relabel(ids, ids[w], cur)
    else ids[w := cur]
  }

  /** The inner loop over the window. */
  function MergeWindow(ids: seq<int>, q: Limits, c: nat, ws: seq<nat>, cur: int): (r: seq<int>)
    requires forall j :: 0 <= j < |ws| ==> ws[j] < |ids|
    ensures |r| == |ids|
    decreases |ws|
  {
    if ws == [] then ids else MergeWindow(MergeOne(ids, q, c, ws[0], cur), q, c, ws[1..], cur)
  }

  /** The cluster labels and the number of clusters opened so far. */
  datatype Labels = Labels(ids: seq<int>, numClusters: int)

  /** Which visited detection skips its comparisons. The code skips the
      detection whose index is the largest entry of the time order, which is
      always the last index of the arrays; the comment beside it says the
      last detection in time order. */
  datatype SkipRule = LargestIndex | LastInTime

  function MaxNat(s: seq<nat>): (m: nat)
    requires |s| > 0
    ensures m in s && forall j :: 0 <= j < |s| ==> s[j] <= m
  {
    if |s| == 1 then s[0]
    else
      var m := MaxNat(s[..|s| - 1]);
      assert s[..|s| - 1] <= s;
      if s[|s| - 1] > m then s[|s| - 1] else m
  }

  predicate Skips(rule: SkipRule, order: seq<nat>, pos: nat)
    requires pos < |order|
  {
    match rule
    case LargestIndex => order[pos] == MaxNat(order)
    case LastInTime => pos == |order| - 1
  }

  /** One pass of the outer loop, at detection `c`. */
  function Visit(s: Labels, p: Points, q: Limits, c: nat, skip: bool): (t: Labels)
    requires WellFormed(p) && |s.ids| == |p.time| && c < |s.ids|
    ensures |t.ids| == |s.ids|
  {
    var s1 := if s.ids[c] == 0 then Labels(s.ids[c := s.numClusters + 1], s.numClusters + 1) else s;
    if skip then s1
    else Labels(MergeWindow(s1.ids, q, c, Window(s1.ids, p, q, c), s1.ids[c]), s1.numClusters)
  }

  /** The outer loop from position `pos` of the time order on. */
  function VisitFrom(s: Labels, p: Points, q: Limits, order: seq<nat>, pos: nat, rule: SkipRule): (t: Labels)
    requires WellFormed(p) && |s.ids| == |p.time| && pos <= |order|
    requires forall j :: 0 <= j < |order| ==> order[j] < |s.ids|
    ensures |t.ids| == |s.ids|
    decreases |order| - pos
  {
    if pos == |order| then s
    else VisitFrom(Visit(s, p, q, order[pos], Skips(rule, order, pos)), p, q, order, pos + 1, rule)
  }

  function MaxInt(s: seq<int>): (m: int)
    requires |s| > 0
    ensures forall j :: 0 <= j < |s| ==> s[j] <= m
  {
    if |s| == 1 then s[0]
    else
      var m := MaxInt(s[..|s| - 1]);
      if s[|s| - 1] > m then s[|s| - 1] else m
  }

  /** The labels `cluster_glm_data` leaves behind, under a skip rule. With no
      detections nothing changes; numbering continues after the largest
      label already present. */
  function ClusterLabels(ids: seq<int>, p: Points, q: Limits, rule: SkipRule): (r: seq<int>)
    requires WellFormed(p) && |ids| == |p.time|
    ensures |r| == |ids|
  {
    if |ids| == 0 then ids
    else
      var order := ArgSort(p.time);
      ArgSortPermutation(p.time);
      VisitFrom(Labels(ids, MaxInt(ids)), p, q, order, 0, rule).ids
  }

  /** The detection visited last. */
  function LastInTimeOrder(p: Points): (c: nat)
    requires |p.time| > 0
    ensures c < |p.time|
  {
    ArgSortPermutation(p.time);
    ArgSort(p.time)[|p.time| - 1]
  }

  // ---------------------------------------------------------------------
  // What one comparison, one window and one visit do to the labels

  predicate NonNegative(ids: seq<int>)
  {
    forall k :: 0 <= k < |ids| ==> ids[k] >= 0
  }

  /** Every assigned detection stays assigned, and detections that share a
      cluster keep sharing one. */
  predicate Coarsens(ids: seq<int>, r: seq<int>)
    requires |r| == |ids|
  {
    (forall k :: 0 <= k < |ids| && ids[k] > 0 ==> r[k] > 0) &&
    forall i, j :: 0 <= i < |ids| && 0 <= j < |ids| && ids[i] == ids[j] > 0 ==> r[i] == r[j]
  }

  lemma MergeOneProps(ids: seq<int>, q: Limits, c: nat, w: nat, cur: int)
    requires w < |ids| && cur > 0 && NonNegative(ids)
    ensures var r := MergeOne(ids, q, c, w, cur);
      NonNegative(r) && Coarsens(ids, r) &&
      (forall k :: 0 <= k < |ids| && ids[k] == cur ==> r[k] == cur) &&
      (!q.apart(w, c) ==> r[w] == cur)
  {
  }

  lemma {:induction false} MergeWindowProps(ids: seq<int>, q: Limits, c: nat, ws: seq<nat>, cur: int)
    requires forall j :: 0 <= j < |ws| ==> ws[j] < |ids|
    requires cur > 0 && NonNegative(ids)
    ensures var r := MergeWindow(ids, q, c, ws, cur);
      NonNegative(r) && Coarsens(ids, r) &&
      (forall k :: 0 <= k < |ids| && ids[k] == cur ==> r[k] == cur) &&
      (forall w :: w in ws && !q.apart(w, c) ==> r[w] == cur)
    decreases |ws|
  {
    if ws != [] {
      var m := MergeOne(ids, q, c, ws[0], cur);
      MergeOneProps(ids, q, c, ws[0], cur);
      MergeWindowProps(m, q, c, ws[1..], cur);
      var r := MergeWindow(m, q, c, ws[1..], cur);
      forall w | w in ws && !q.apart(w, c) ensures r[w] == cur {
        if w != ws[0] {
          assert w in ws[1..];
        }
      }
    }
  }

  /** A visit keeps labels non-negative, assigns `c`, only coarsens the
      clustering, and, unless it skips, leaves `c` in the cluster of every
      detection it is linked to. */
  lemma VisitProps(s: Labels, p: Points, q: Limits, c: nat, skip: bool)
    requires WellFormed(p) && |s.ids| == |p.time| && c < |s.ids|
    requires NonNegative(s.ids) && s.numClusters >= 0
    ensures var t := Visit(s, p, q, c, skip);
      NonNegative(t.ids) && t.numClusters >= 0 && Coarsens(s.ids, t.ids) && t.ids[c] > 0 &&
      (!skip ==> forall k :: 0 <= k < |s.ids| && Linked(p, q, c, k) ==> t.ids[k] == t.ids[c])
  {
    var s1 := if s.ids[c] == 0 then Labels(s.ids[c := s.numClusters + 1], s.numClusters + 1) else s;
    assert Coarsens(s.ids, s1.ids);
    var cur := s1.ids[c];
    if !skip {
      var ws := Window(s1.ids, p, q, c);
      MergeWindowProps(s1.ids, q, c, ws, cur);
      var r := MergeWindow(s1.ids, q, c, ws, cur);
      assert Coarsens(s.ids, r) by {
        assert Coarsens(s1.ids, r);
      }
      forall k | 0 <= k < |s.ids| && Linked(p, q, c, k) ensures r[k] == r[c] {
        if s1.ids[k] != cur {
          assert k in ws;
        }
      }
    }
  }

  // ---------------------------------------------------------------------
  // The whole pass

  /** What holds after the first `pos` visits. */
  predicate Visited(s: Labels, p: Points, q: Limits, order: seq<nat>, pos: nat, rule: SkipRule)
    requires WellFormed(p) && |s.ids| == |p.time| && pos <= |order|
    requires forall j :: 0 <= j < |order| ==> order[j] < |s.ids|
  {
    NonNegative(s.ids) && s.numClusters >= 0 &&
    (forall j :: 0 <= j < pos ==> s.ids[order[j]] > 0) &&
    forall j, k :: 0 <= j < pos && 0 <= k < |s.ids| && !Skips(rule, order, j) && Linked(p, q, order[j], k) ==>
      s.ids[k] == s.ids[order[j]]
  }

  /** The visit at position `pos` extends what holds after `pos` visits to
      `pos + 1`, given what `VisitProps` states about it. */
  lemma VisitedStep(s: Labels, t: Labels, p: Points, q: Limits, order: seq<nat>, pos: nat, rule: SkipRule)
    requires WellFormed(p) && |s.ids| == |p.time| && |t.ids| == |s.ids| && pos < |order|
    requires forall j :: 0 <= j < |order| ==> order[j] < |s.ids|
    requires Visited(s, p, q, order, pos, rule)
    requires NonNegative(t.ids) && t.numClusters >= 0 && Coarsens(s.ids, t.ids) && t.ids[order[pos]] > 0
    requires !Skips(rule, order, pos) ==>
      forall k :: 0 <= k < |s.ids| && Linked(p, q, order[pos], k) ==> t.ids[k] == t.ids[order[pos]]
    ensures Visited(t, p, q, order, pos + 1, rule)
  {
    forall j, k | 0 <= j < pos + 1 && 0 <= k < |s.ids| && !Skips(rule, order, j) && Linked(p, q, order[j], k)
      ensures t.ids[k] == t.ids[order[j]]
    {
      if j < pos {
        assert s.ids[order[j]] > 0 && s.ids[k] == s.ids[order[j]];
      }
    }
  }

  lemma {:induction false} VisitFromProps(s: Labels, p: Points, q: Limits, order: seq<nat>, pos: nat, rule: SkipRule)
    requires WellFormed(p) && |s.ids| == |p.time| && pos <= |order|
    requires forall j :: 0 <= j < |order| ==> order[j] < |s.ids|
    requires Visited(s, p, q, order, pos, rule)
    ensures Visited(VisitFrom(s, p, q, order, pos, rule), p, q, order, |order|, rule)
    decreases |order| - pos
  {
    if pos < |order| {
      var t := Visit(s, p, q, order[pos], Skips(rule, order, pos));
      VisitProps(s, p, q, order[pos], Skips(rule, order, pos));
      VisitedStep(s, t, p, q, order, pos, rule);
      VisitFromProps(t, p, q, order, pos + 1, rule);
    }
  }

  /** Every detection that does not skip shares the cluster of every
      detection it is linked to. */
  predicate Together(r: seq<int>, p: Points, q: Limits, order: seq<nat>, rule: SkipRule)
    requires WellFormed(p) && |r| == |p.time|
    requires forall j :: 0 <= j < |order| ==> order[j] < |r|
  {
    forall j, k :: 0 <= j < |order| && 0 <= k < |r| && !Skips(rule, order, j) && Linked(p, q, order[j], k) ==>
      r[k] == r[order[j]]
  }

  /** Under either skip rule, starting from unassigned or assigned (never
      negative) labels: every detection is assigned a cluster, and every
      detection that does not skip ends in the cluster of every detection it
      is linked to. */
  lemma {:induction false} ClusterLabelsProps(ids: seq<int>, p: Points, q: Limits, rule: SkipRule)
    requires WellFormed(p) && |ids| == |p.time| && |ids| > 0 && NonNegative(ids)
    ensures var r := ClusterLabels(ids, p, q, rule);
      (forall k :: 0 <= k < |ids| ==> r[k] > 0) && Together(r, p, q, ArgSort(p.time), rule)
  {
    var order := ArgSort(p.time);
    ArgSortPermutation(p.time);
    var s := Labels(ids, MaxInt(ids));
    assert ids[0] <= MaxInt(ids);
    assert Visited(s, p, q, order, 0, rule);
    VisitFromProps(s, p, q, order, 0, rule);
    var r := ClusterLabels(ids, p, q, rule);
    assert r == VisitFrom(s, p, q, order, 0, rule).ids;
    forall k | 0 <= k < |ids| ensures r[k] > 0 {
      assert k in order;
      var j :| 0 <= j < |order| && order[j] == k;
    }
  }

  /** With the skip at the last detection in time order, every other
      detection ends in the cluster of every detection it is linked to, so
      proximity chains are transitive: the clusters are unions of linked
      pairs. */
  lemma ClusterTogether(ids: seq<int>, p: Points, q: Limits, c: nat, k: nat)
    requires WellFormed(p) && |ids| == |p.time| && NonNegative(ids)
    requires c < |ids| && k < |ids| && c != LastInTimeOrder(p) && Linked(p, q, c, k)
    ensures var r := ClusterLabels(ids, p, q, LastInTime);
      r[c] == r[k] && r[c] > 0
  {
    var order := ArgSort(p.time);
    ArgSortPermutation(p.time);
    ClusterLabelsProps(ids, p, q, LastInTime);
    assert c in order;
    var j :| 0 <= j < |order| && order[j] == c;
    assert !Skips(LastInTime, order, j);
  }

  /** The largest entry of a time order is the last array index, so the
      original skip rule skips detection `n-1` wherever it falls in time. */
  lemma LargestIndexIsLast(p: Points)
    requires |p.time| > 0
    ensures MaxNat(ArgSort(p.time)) == |p.time| - 1
  {
    ArgSortPermutation(p.time);
    var order := ArgSort(p.time);
    var m := MaxNat(order);
    assert |p.time| - 1 in order;
    var j :| 0 <= j < |order| && order[j] == m;
  }

  /** Two detections close enough to cluster, the later one stored first. */
  const TwoPoints: Points := Points([1.0, 0.0], [0.0, 0.0], [0.0, 0.0])
  const TwoLimits: Limits := Limits(2.0, 1.0, _ => 1.0, (_, _) => false)

  lemma TwoPointsOrder()
    ensures ArgSort(TwoPoints.time) == [1, 0]
  {
    assert ArgSortUpTo(TwoPoints.time, 1) == [0];
  }

  lemma TwoPointsWindows()
    ensures Window([2, 1], TwoPoints, TwoLimits, 0) == []
    ensures Window([0, 1], TwoPoints, TwoLimits, 1) == [0]
  {
    assert !InBox(TwoPoints, TwoLimits, 0, 1);
    assert WindowUpTo([2, 1], TwoPoints, TwoLimits, 0, 1) == [];
    assert InBox(TwoPoints, TwoLimits, 1, 0);
    assert WindowUpTo([0, 1], TwoPoints, TwoLimits, 1, 1) == [0];
  }

  lemma TwoPointsMerge()
    ensures MergeWindow([0, 1], TwoLimits, 1, [0], 1) == [1, 1]
  {
    assert MergeOne([0, 1], TwoLimits, 1, 0, 1) == [1, 1];
    assert [0][1..] == [];
  }

  lemma TwoPointsLargestIndexSteps()
    ensures Visit(Labels([0, 0], 0), TwoPoints, TwoLimits, 1, true) == Labels([0, 1], 1)
    ensures Visit(Labels([0, 1], 1), TwoPoints, TwoLimits, 0, false) == Labels([2, 1], 2)
  {
    assert [0, 0][1 := 1] == [0, 1];
    assert [0, 1][0 := 2] == [2, 1];
    TwoPointsWindows();
  }

  lemma TwoPointsLastInTimeSteps()
    ensures Visit(Labels([0, 0], 0), TwoPoints, TwoLimits, 1, false) == Labels([1, 1], 1)
    ensures Visit(Labels([1, 1], 1), TwoPoints, TwoLimits, 0, true) == Labels([1, 1], 1)
  {
    assert [0, 0][1 := 1] == [0, 1];
    TwoPointsWindows();
    TwoPointsMerge();
  }

  /** Under the original rule the earlier detection (index 1) opens cluster
      1 and skips its comparisons; the other one opens cluster 2 and never
      looks back in time. */
  lemma TwoPointsLargestIndex()
    ensures VisitFrom(Labels([0, 0], 0), TwoPoints, TwoLimits, [1, 0], 0, LargestIndex) == Labels([2, 1], 2)
  {
    var order: seq<nat> := [1, 0];
    assert MaxNat(order) == 1;
    TwoPointsLargestIndexSteps();
  }

  /** Skipping the last detection in time order instead, the earlier one
      compares with the later and they share cluster 1. */
  lemma TwoPointsLastInTime()
    ensures VisitFrom(Labels([0, 0], 0), TwoPoints, TwoLimits, [1, 0], 0, LastInTime) == Labels([1, 1], 1)
  {
    TwoPointsLastInTimeSteps();
  }

  /** The original skip rule splits a linked pair: detection 1 is linked to
      detection 0 and is not the last in time order, yet they end in two
      clusters; the corrected rule keeps them together. */
  lemma LargestIndexSplitsLinkedPair()
    ensures Linked(TwoPoints, TwoLimits, 1, 0) && LastInTimeOrder(TwoPoints) == 0
    ensures var r := ClusterLabels([0, 0], TwoPoints, TwoLimits, LargestIndex); r[1] != r[0]
    ensures var r := ClusterLabels([0, 0], TwoPoints, TwoLimits, LastInTime); r[1] == r[0]
  {
    TwoPointsOrder();
    assert MaxInt([0, 0]) == 0;
    TwoPointsLargestIndex();
    TwoPointsLastInTime();
  }

  // ---------------------------------------------------------------------
  // The loops

  /** `cluster_glm_data`, with the skip at the last detection in time
      order: the outer loop visits the detections in time order. */
  method ClusterGlmData(ids: seq<int>, p: Points, q: Limits) returns (r: seq<int>)
    requires WellFormed(p) && |ids| == |p.time|
    ensures r == ClusterLabels(ids, p, q, LastInTime)
  {
    if |ids| == 0 {
      return ids;
    }
    var order := ArgSort(p.time);
    ArgSortPermutation(p.time);
    var numClusters := MaxInt(ids);
    r := ids;
    ghost var goal := VisitFrom(Labels(ids, numClusters), p, q, order, 0, LastInTime);
    for pos := 0 to |order|
      invariant |r| == |ids|
      invariant VisitFrom(Labels(r, numClusters), p, q, order, pos, LastInTime) == goal
    {
      r, numClusters := VisitDetection(r, numClusters, p, q, order[pos], pos == |order| - 1);
    }
  }

  /** One pass of the outer loop: assign `c` a new cluster when it has none,
      then, unless it is the last, compare it with its window. */
  method VisitDetection(ids: seq<int>, numClusters: int, p: Points, q: Limits, c: nat, last: bool)
    returns (r: seq<int>, n: int)
    requires WellFormed(p) && |ids| == |p.time| && c < |ids|
    ensures Labels(r, n) == Visit(Labels(ids, numClusters), p, q, c, last)
  {
    r, n := ids, numClusters;
    if r[c] == 0 {
      r := r[c := n + 1];
      n := n + 1;
    }
    if last {
      return;
    }
    r := MergeLoop(r, q, c, Window(r, p, q, c), r[c]);
  }

  /** The inner loop: every detection of the window that passes the
      distance test joins the current cluster `cur`. */
  method MergeLoop(ids: seq<int>, q: Limits, c: nat, ws: seq<nat>, cur: int) returns (r: seq<int>)
    requires forall j :: 0 <= j < |ws| ==> ws[j] < |ids|
    ensures r == MergeWindow(ids, q, c, ws, cur)
  {
    r := ids;
    var j := 0;
    while j < |ws|
      invariant 0 <= j <= |ws| && |r| == |ids|
      invariant MergeWindow(r, q, c, ws[j..], cur) == MergeWindow(ids, q, c, ws, cur)
    {
      assert ws[j..][0] == ws[j] && ws[j..][1..] == ws[j + 1..];
      var w := ws[j];
      if !q.apart(w, c) {
        if r[w] > 0 {
          r := Relabel(r, r[w], cur);
        } else {
          r := r[w := cur];
        }
      }
      j := j + 1;
    }
  }
}
