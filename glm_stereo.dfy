/** The stereo low-altitude filter of `GlmDataSet`: choosing two non-parallel
    satellites that see a cluster, taking the lines of sight of each nearest
    in time to the cluster's energy peak, intersecting the first pair of
    them that coincide in time, and rejecting the cluster when that point
    lies below the altitude threshold. */
module GlmStereo {
  import opened Wrappers
  import opened RealMath
  import opened ArrayOps
  import GeoHelpers
  import VelocityHelpers
  import GlmMarking

  /** The per-detection arrays of the data set this filter reads, co-indexed. */
  datatype Detections = Detections(
    sat: seq<int>, time: seq<real>, energy: seq<real>, intensity: seq<real>,
    satPos: seq<Vec3>, high: seq<Vec3>, low: seq<Vec3>,
    group: seq<int>, highest: seq<int>, fitness: seq<int>,
    lat: seq<real>, lon: seq<real>)
  {
    predicate Valid()
    {
      |time| == |sat| && |energy| == |sat| && |intensity| == |sat| &&
      |satPos| == |sat| && |high| == |sat| && |low| == |sat| &&
      |group| == |sat| && |highest| == |sat| && |fitness| == |sat| &&
      |lat| == |sat| && |lon| == |sat|
    }
  }

  /** Half of the GLM sample period: lines of sight of the two satellites
      closer in time than this are compared (seconds). */
  const HalfSamplePeriodS: real := 0.01

  /** The default cap on the lines of sight taken per satellite. */
  const MaxNumComparisons: nat := 10

  /** The default altitude below which a stereo cluster is rejected (metres). */
  const AltitudeThresholdM: real := 20000.0

  // ---------------------------------------------------------------------
  // get_stereo_pair: the sine-angle array

  /** One row of the sine-angle array: the indices of two satellite rows
      and whether the angle between their positions exceeds the parallel
      threshold. */
  type Comparison = (nat, nat, bool)

  /** The comparisons of row `i` with the rows `i + 1 .. j - 1`. */
  function RowPrefix(pos: seq<Vec3>, nonParallel: (Vec3, Vec3) -> bool, i: nat, j: nat): (r: seq<Comparison>)
    requires i < j <= |pos|
    decreases j
    ensures |r| == j - i - 1
    ensures forall p :: 0 <= p < |r| ==> r[p] == (i, i + 1 + p, nonParallel(pos[i], pos[i + 1 + p]))
  {
    if j == i + 1 then [] else RowPrefix(pos, nonParallel, i, j - 1) + [(i, j - 1, nonParallel(pos[i], pos[j - 1]))]
  }

  /** The comparisons made by the outer loop before row `i`. */
  function PairsBefore(pos: seq<Vec3>, nonParallel: (Vec3, Vec3) -> bool, i: nat): (r: seq<Comparison>)
    requires i < |pos|
  {
    if i == 0 then [] else PairsBefore(pos, nonParallel, i - 1) + RowPrefix(pos, nonParallel, i - 1, |pos|)
  }

  /** The whole sine-angle array; it is empty for fewer than two rows. */
  function SineAngles(pos: seq<Vec3>, nonParallel: (Vec3, Vec3) -> bool): seq<Comparison>
  {
    if |pos| < 2 then [] else PairsBefore(pos, nonParallel, |pos| - 1)
  }

  /** Lexicographic order on index pairs: the order the double loop visits them. */
  predicate Before(a: (nat, nat), b: (nat, nat))
  {
    a.0 < b.0 || (a.0 == b.0 && a.1 < b.1)
  }

  /** Every row of `r` compares two rows `a < b` of the first `i`. */
  predicate Entries(pos: seq<Vec3>, nonParallel: (Vec3, Vec3) -> bool, r: seq<Comparison>, i: nat)
  {
    forall p :: 0 <= p < |r| ==>
      r[p].0 < i && r[p].0 < r[p].1 < |pos| && r[p].2 == nonParallel(pos[r[p].0], pos[r[p].1])
  }

  /** Every pair `a < b` with `a < i` is compared in `r`. */
  predicate Complete(pos: seq<Vec3>, nonParallel: (Vec3, Vec3) -> bool, r: seq<Comparison>, i: nat)
  {
    forall a, b :: 0 <= a < i && a < b < |pos| ==> (a, b, nonParallel(pos[a], pos[b])) in r
  }

  /** The rows of `r` are in visiting order. */
  predicate InOrder(r: seq<Comparison>)
  {
    forall p, q :: 0 <= p < q < |r| ==> Before((r[p].0, r[p].1), (r[q].0, r[q].1))
  }

  lemma {:induction false} PairsBeforeEntries(pos: seq<Vec3>, nonParallel: (Vec3, Vec3) -> bool, i: nat)
    requires i < |pos|
    ensures Entries(pos, nonParallel, PairsBefore(pos, nonParallel, i), i)
  {
    if i > 0 {
      PairsBeforeEntries(pos, nonParallel, i - 1);
      var left, row := PairsBefore(pos, nonParallel, i - 1), RowPrefix(pos, nonParallel, i - 1, |pos|);
      var r := left + row;
      forall p | 0 <= p < |r|
        ensures r[p].0 < i && r[p].0 < r[p].1 < |pos| && r[p].2 == nonParallel(pos[r[p].0], pos[r[p].1])
      {
        if p < |left| {
          assert r[p] == left[p];
        } else {
          assert r[p] == row[p - |left|];
        }
      }
    }
  }

  lemma {:induction false} PairsBeforeComplete(pos: seq<Vec3>, nonParallel: (Vec3, Vec3) -> bool, i: nat)
    requires i < |pos|
    ensures Complete(pos, nonParallel, PairsBefore(pos, nonParallel, i), i)
  {
    if i > 0 {
      PairsBeforeComplete(pos, nonParallel, i - 1);
      var left, row := PairsBefore(pos, nonParallel, i - 1), RowPrefix(pos, nonParallel, i - 1, |pos|);
      forall a, b | 0 <= a < i && a < b < |pos|
        ensures (a, b, nonParallel(pos[a], pos[b])) in left + row
      {
        if a == i - 1 {
          assert row[b - i] == (a, b, nonParallel(pos[a], pos[b]));
        } else {
          assert (a, b, nonParallel(pos[a], pos[b])) in left;
        }
      }
    }
  }

  lemma {:induction false} PairsBeforeInOrder(pos: seq<Vec3>, nonParallel: (Vec3, Vec3) -> bool, i: nat)
    requires i < |pos|
    ensures InOrder(PairsBefore(pos, nonParallel, i))
  {
    if i > 0 {
      PairsBeforeInOrder(pos, nonParallel, i - 1);
      PairsBeforeEntries(pos, nonParallel, i - 1);
      var left, row := PairsBefore(pos, nonParallel, i - 1), RowPrefix(pos, nonParallel, i - 1, |pos|);
      InOrderAppend(left, row, i - 1);
    }
  }

  /** The comparisons of one more row, all after the earlier rows, keep the visiting order. */
  lemma InOrderAppend(left: seq<Comparison>, row: seq<Comparison>, i: nat)
    requires InOrder(left)
    requires forall p :: 0 <= p < |left| ==> left[p].0 < i
    requires forall q :: 0 <= q < |row| ==> row[q].0 == i
    requires forall p, q :: 0 <= p < q < |row| ==> row[p].1 < row[q].1
    ensures InOrder(left + row)
  {
    var r := left + row;
    forall p, q | 0 <= p < q < |r|
      ensures Before((r[p].0, r[p].1), (r[q].0, r[q].1))
    {
      if q < |left| {
        assert r[p] == left[p] && r[q] == left[q];
      } else if p >= |left| {
        assert r[p] == row[p - |left|] && r[q] == row[q - |left|];
      } else {
        assert r[p] == left[p] && r[q] == row[q - |left|];
      }
    }
  }

  /** The array of `get_stereo_pair` lists each pair of rows `a < b` once, in
      the order of the double loop, with its parallel test. */
  lemma SineAnglesListed(pos: seq<Vec3>, nonParallel: (Vec3, Vec3) -> bool)
    ensures Entries(pos, nonParallel, SineAngles(pos, nonParallel), |pos|)
    ensures Complete(pos, nonParallel, SineAngles(pos, nonParallel), |pos|)
    ensures InOrder(SineAngles(pos, nonParallel))
  {
    if |pos| >= 2 {
      PairsBeforeEntries(pos, nonParallel, |pos| - 1);
      PairsBeforeComplete(pos, nonParallel, |pos| - 1);
      PairsBeforeInOrder(pos, nonParallel, |pos| - 1);
    }
  }

  /** The double loop of `get_stereo_pair` that fills the sine-angle array. */
  method SineAngleArray(pos: seq<Vec3>, nonParallel: (Vec3, Vec3) -> bool) returns (rows: seq<Comparison>)
    ensures rows == SineAngles(pos, nonParallel)
  {
    rows := [];
    if |pos| >= 2 {
      var i := 0;
      while i < |pos| - 1
        invariant 0 <= i <= |pos| - 1 && rows == PairsBefore(pos, nonParallel, i)
      {
        var row := RowComparisons(pos, nonParallel, i);
        rows := rows + row;
        i := i + 1;
      }
    }
  }

  /** The inner loop of `get_stereo_pair`: row `i` compared with every later row. */
  method RowComparisons(pos: seq<Vec3>, nonParallel: (Vec3, Vec3) -> bool, i: nat) returns (row: seq<Comparison>)
    requires i < |pos|
    ensures row == RowPrefix(pos, nonParallel, i, |pos|)
  {
    row := [];
    var j := i + 1;
    while j < |pos|
      invariant i + 1 <= j <= |pos| && row == RowPrefix(pos, nonParallel, i, j)
    {
      row := row + [(i, j, nonParallel(pos[i], pos[j]))];
      j := j + 1;
    }
  }

  /** The position of the last non-parallel comparison of `r`, or -1. */
  function LastAt(r: seq<Comparison>): (p: int)
    ensures -1 <= p < |r|
    ensures p >= 0 ==> r[p].2
    ensures forall q :: p < q < |r| ==> !r[q].2
  {
    if r == [] then -1
    else if r[|r| - 1].2 then |r| - 1
    else LastAt(r[..|r| - 1])
  }

  /** `sine_angle_array[sine_angle_array[:, 2] > threshold][-1]`: the last
      non-parallel comparison, if any. */
  function LastNonParallel(r: seq<Comparison>): Option<(nat, nat)>
  {
    var p := LastAt(r);
    if p < 0 then None else Some((r[p].0, r[p].1))
  }

  /** A non-parallel pair is never followed by the pair kept. */
  lemma LastAtLatest(pos: seq<Vec3>, nonParallel: (Vec3, Vec3) -> bool, r: seq<Comparison>, a: nat, b: nat)
    requires Complete(pos, nonParallel, r, |pos|) && InOrder(r)
    requires a < b < |pos| && nonParallel(pos[a], pos[b])
    ensures LastAt(r) >= 0 && !Before((r[LastAt(r)].0, r[LastAt(r)].1), (a, b))
  {
    var p := LastAt(r);
    assert (a, b, nonParallel(pos[a], pos[b])) in r;
    var q :| 0 <= q < |r| && r[q] == (a, b, true);
    assert q <= p;
    if q < p {
      assert Before((r[q].0, r[q].1), (r[p].0, r[p].1));
    }
  }

  /** The pair of satellite rows `get_stereo_pair` keeps: none when every pair
      is nearly parallel, otherwise a non-parallel pair that no other
      non-parallel pair follows in loop order. */
  lemma StereoChoiceIsLast(pos: seq<Vec3>, nonParallel: (Vec3, Vec3) -> bool)
    ensures LastNonParallel(SineAngles(pos, nonParallel)) == None <==>
      forall a, b :: 0 <= a < b < |pos| ==> !nonParallel(pos[a], pos[b])
    ensures LastNonParallel(SineAngles(pos, nonParallel)).Some? ==>
      var (i, j) := LastNonParallel(SineAngles(pos, nonParallel)).value;
      i < j < |pos| && nonParallel(pos[i], pos[j]) &&
      forall a, b :: 0 <= a < b < |pos| && nonParallel(pos[a], pos[b]) ==> !Before((i, j), (a, b))
  {
    var r := SineAngles(pos, nonParallel);
    SineAnglesListed(pos, nonParallel);
    forall a, b | 0 <= a < b < |pos| && nonParallel(pos[a], pos[b])
      ensures LastAt(r) >= 0 && !Before((r[LastAt(r)].0, r[LastAt(r)].1), (a, b))
    {
      LastAtLatest(pos, nonParallel, r, a, b);
    }
  }

  // ---------------------------------------------------------------------
  // get_stereo_pair: from the cluster's satellites to the chosen pair

  /** The row order of `np.unique(..., axis=0)` on positions: by x, then y, then z. */
  predicate LexLess(a: Vec3, b: Vec3)
  {
    a.x < b.x || (a.x == b.x && (a.y < b.y || (a.y == b.y && a.z < b.z)))
  }

  predicate LexSorted(s: seq<Vec3>)
  {
    forall a, b :: 0 <= a < b < |s| ==> LexLess(s[a], s[b])
  }

  /** Two different positions are ordered one way or the other. */
  lemma LexTotal(a: Vec3, b: Vec3)
    requires a != b
    ensures LexLess(a, b) || LexLess(b, a)
  {
  }

  /** Every later position of a sorted sequence follows its head. */
  lemma LexTailAbove(s: seq<Vec3>)
    requires LexSorted(s) && s != []
    ensures forall u :: u in s[1..] ==> LexLess(s[0], u)
  {
    forall u | u in s[1..] ensures LexLess(s[0], u) {
      var i :| 0 <= i < |s[1..]| && s[1..][i] == u;
      assert s[i + 1] == u;
    }
  }

  /** Putting a position in its place in a sorted sequence without repeats. */
  function InsertPosition(s: seq<Vec3>, v: Vec3): (r: seq<Vec3>)
    requires LexSorted(s)
    ensures LexSorted(r)
    ensures forall u :: u in r <==> u in s || u == v
  {
    if s == [] then [v]
    else if v == s[0] then s
    else if LexLess(v, s[0]) then
      assert forall b :: 0 < b < |s| ==> LexLess(s[0], s[b]);
      [v] + s
    else
      var t := InsertPosition(s[1..], v);
      assert s == [s[0]] + s[1..];
      LexTailAbove(s);
      LexTotal(v, s[0]);
      assert forall u :: u in t ==> LexLess(s[0], u);
      assert forall b :: 0 <= b < |t| ==> t[b] in t;
      [s[0]] + t
  }

  /** The distinct positions of `xs`, sorted by `LexLess`. */
  function SortedPositions(xs: seq<Vec3>): (r: seq<Vec3>)
    ensures LexSorted(r)
    ensures forall u :: u in r <==> u in xs
  {
    if xs == [] then []
    else
      assert xs == xs[..|xs| - 1] + [xs[|xs| - 1]];
      InsertPosition(SortedPositions(xs[..|xs| - 1]), xs[|xs| - 1])
  }

  /** The distinct positions satellite `s` reports inside mask `m`, in the
      row order of `np.unique`: each position it reports there once, sorted
      by x, then y, then z. */
  function PositionsOf(d: Detections, m: seq<bool>, s: int): (ps: seq<Vec3>)
    requires d.Valid() && |m| == |d.sat|
    ensures LexSorted(ps)
    ensures forall u :: u in ps <==> u in Select(d.satPos, And(m, EqualMask(d.sat, s)))
  {
    SortedPositions(Select(d.satPos, And(m, EqualMask(d.sat, s))))
  }

  /** The rows `np.unique` makes of the (satellite id, position) pairs of the
      cluster: grouped by increasing satellite id, and within one satellite
      sorted by position. */
  function SatRows(d: Detections, m: seq<bool>, us: seq<int>): (rows: seq<(int, Vec3)>)
    requires d.Valid() && |m| == |d.sat|
    requires StrictlyIncreasing(us)
    ensures forall p :: 0 <= p < |rows| ==> rows[p].0 in us
    ensures forall a, b :: 0 <= a < b < |rows| ==> RowBefore(rows[a], rows[b])
  {
    if us == [] then []
    else
      var s := us[|us| - 1];
      var ps := PositionsOf(d, m, s);
      var front := SatRows(d, m, us[..|us| - 1]);
      var back := seq(|ps|, i requires 0 <= i < |ps| => (s, ps[i]));
      assert forall p :: 0 <= p < |front| ==> front[p].0 < s by {
        forall p | 0 <= p < |front| ensures front[p].0 < s {
          var i :| 0 <= i < |us| - 1 && us[i] == front[p].0;
        }
      }
      front + back
  }

  /** The row order of `np.unique(..., axis=0)` on (satellite id, position) rows. */
  predicate RowBefore(r1: (int, Vec3), r2: (int, Vec3))
  {
    r1.0 < r2.0 || (r1.0 == r2.0 && LexLess(r1.1, r2.1))
  }

  function RowPositions(rows: seq<(int, Vec3)>): (pos: seq<Vec3>)
    ensures |pos| == |rows| && forall p :: 0 <= p < |rows| ==> pos[p] == rows[p].1
  {
    seq(|rows|, p requires 0 <= p < |rows| => rows[p].1)
  }

  /** The satellite ids `get_stereo_pair` returns for mask `m`: none, or the
      ids of the last non-parallel pair of rows. */
  function StereoSats(d: Detections, m: seq<bool>, nonParallel: (Vec3, Vec3) -> bool): (r: seq<int>)
    requires d.Valid() && |m| == |d.sat|
  {
    var rows := SatRows(d, m, Unique(Select(d.sat, m)));
    match LastNonParallel(SineAngles(RowPositions(rows), nonParallel))
    case None => []
    case Some((i, j)) =>
      SineAnglesListed(RowPositions(rows), nonParallel);
      StereoChoiceIsLast(RowPositions(rows), nonParallel);
      [rows[i].0, rows[j].0]
  }

  /** The pair is empty or two satellites that have detections in the mask,
      and it is empty exactly when every two rows are nearly parallel. */
  lemma StereoSatsProps(d: Detections, m: seq<bool>, nonParallel: (Vec3, Vec3) -> bool)
    requires d.Valid() && |m| == |d.sat|
    ensures var r := StereoSats(d, m, nonParallel);
      (|r| == 0 || |r| == 2) && forall s :: s in r ==> s in Select(d.sat, m)
    ensures var pos := RowPositions(SatRows(d, m, Unique(Select(d.sat, m))));
      StereoSats(d, m, nonParallel) == [] <==> forall a, b :: 0 <= a < b < |pos| ==> !nonParallel(pos[a], pos[b])
  {
    var rows := SatRows(d, m, Unique(Select(d.sat, m)));
    StereoChoiceIsLast(RowPositions(rows), nonParallel);
  }

  /** `get_stereo_pair`: the double loop fills the sine-angle array, and the
      last non-parallel row of it names the pair. */
  method GetStereoPair(d: Detections, m: seq<bool>, nonParallel: (Vec3, Vec3) -> bool) returns (r: seq<int>)
    requires d.Valid() && |m| == |d.sat|
    ensures r == StereoSats(d, m, nonParallel)
  {
    var rows := SatRows(d, m, Unique(Select(d.sat, m)));
    var angles := SineAngleArray(RowPositions(rows), nonParallel);
    var choice := LastNonParallel(angles);
    if choice.None? {
      r := [];
    } else {
      SineAnglesListed(RowPositions(rows), nonParallel);
      StereoChoiceIsLast(RowPositions(rows), nonParallel);
      r := [rows[choice.value.0].0, rows[choice.value.1].0];
    }
  }

  // ---------------------------------------------------------------------
  // subset_by_top_energies

  /** The first detection of the mask with the largest energy (`np.argmax`). */
  function PeakIndex(d: Detections, m: seq<bool>): (k: nat)
    requires d.Valid() && |m| == |d.sat| && CountTrue(m) > 0
    ensures k < |m| && m[k]
    ensures forall j :: 0 <= j < |m| && m[j] ==> d.energy[j] <= d.energy[k]
  {
    ArgMaxOfSelect(d.energy, m);
    Where(m)[ArgMax(Select(d.energy, m))]
  }

  /** The list without the value `v`, order kept. */
  function Without(xs: seq<int>, v: int): (r: seq<int>)
    ensures forall y :: y in r <==> y in xs && y != v
    ensures |r| <= |xs|
  {
    if xs == [] then []
    else
      assert forall y :: y in xs <==> y in xs[..|xs| - 1] || y == xs[|xs| - 1] by {
        assert xs == xs[..|xs| - 1] + [xs[|xs| - 1]];
      }
      Without(xs[..|xs| - 1], v) + (if xs[|xs| - 1] == v then [] else [xs[|xs| - 1]])
  }

  /** The distances of the times to the peak time. */
  function Distances(ts: seq<real>, t0: real): (r: seq<real>)
    ensures |r| == |ts| && forall j :: 0 <= j < |ts| ==> r[j] == Abs(ts[j] - t0)
  {
    seq(|ts|, j requires 0 <= j < |ts| => Abs(ts[j] - t0))
  }

  /** `nearest_time_indices`: the selection's positions by distance to the
      peak time, cut to `maxNum` when there are at least that many. */
  function NearestOrder(ts: seq<real>, t0: real, maxNum: nat): (idx: seq<nat>)
    ensures |idx| == if |ts| >= maxNum then maxNum else |ts|
    ensures forall a :: 0 <= a < |idx| ==> idx[a] < |ts|
  {
    var order := ArgSort(Distances(ts, t0));
    if |ts| >= maxNum then order[..maxNum] else order
  }

  /** A kept line of sight is never farther in time from the peak than one
      left out, and the kept ones come nearest first. */
  lemma NearestOrderIsNearest(ts: seq<real>, t0: real, maxNum: nat)
    ensures var idx := NearestOrder(ts, t0, maxNum);
      (forall a, b :: 0 <= a < b < |idx| ==> Abs(ts[idx[a]] - t0) <= Abs(ts[idx[b]] - t0)) &&
      (forall a, j :: 0 <= a < |idx| && 0 <= j < |ts| && j !in idx ==> Abs(ts[idx[a]] - t0) <= Abs(ts[j] - t0))
  {
    var keys := Distances(ts, t0);
    var order := ArgSort(keys);
    var idx := NearestOrder(ts, t0, maxNum);
    ArgSortPermutation(keys);
    forall a, j | 0 <= a < |idx| && 0 <= j < |ts| && j !in idx
      ensures Abs(ts[idx[a]] - t0) <= Abs(ts[j] - t0)
    {
      assert j in order;
      var b :| 0 <= b < |order| && order[b] == j;
      assert forall c :: 0 <= c < |idx| ==> idx[c] == order[c];
      assert keys[order[a]] <= keys[order[b]];
    }
  }

  /** The lines of sight of satellite `s` inside `m` nearest in time to `t0`,
      at most `maxNum` of them; none when the satellite has no detection there. */
  function NearestTrack(d: Detections, m: seq<bool>, s: int, t0: real, maxNum: nat): (r: Option<VelocityHelpers.LosData>)
    requires d.Valid() && |m| == |d.sat|
    ensures r.Some? <==> CountTrue(And(m, EqualMask(d.sat, s))) > 0
    ensures r.Some? ==> r.value.Valid() &&
                        var n := CountTrue(And(m, EqualMask(d.sat, s)));
                        |r.value.times| == if n >= maxNum then maxNum else n
  {
    var sel := And(m, EqualMask(d.sat, s));
    if CountTrue(sel) == 0 then None
    else
      var ts := Select(d.time, sel);
      var idx := NearestOrder(ts, t0, maxNum);
      Some(VelocityHelpers.LosData(Gather(ts, idx), Gather(Select(d.high, sel), idx), Gather(Select(d.low, sel), idx)))
  }

  // ---------------------------------------------------------------------
  // mark_low_atl_clusters

  /** `np.min(np.where(abs(ts - t) < HALF_GLM_SAMPLE_PERIOD_S))`: the first
      time of `ts` within half a sample period of `t`, if any. */
  function FirstWithin(ts: seq<real>, t: real): (j: Option<nat>)
    ensures j.Some? ==> j.value < |ts| && Abs(ts[j.value] - t) < HalfSamplePeriodS &&
                        forall i :: 0 <= i < j.value ==> Abs(ts[i] - t) >= HalfSamplePeriodS
    ensures j.None? ==> forall i :: 0 <= i < |ts| ==> Abs(ts[i] - t) >= HalfSamplePeriodS
  {
    var close := seq(|ts|, i requires 0 <= i < |ts| => Abs(ts[i] - t) < HalfSamplePeriodS);
    assert forall i :: 0 <= i < |ts| ==> (close[i] <==> Abs(ts[i] - t) < HalfSamplePeriodS);
    if CountTrue(close) == 0 then
      MaskEmpty(close);
      None
    else
      WhereFirst(close);
      Some(Where(close)[0])
  }

  /** The first line of sight of the first satellite, from position `i` on,
      that has a partner of the second satellite within half a sample
      period, with that partner. */
  function FirstMatchFrom(a: seq<real>, b: seq<real>, i: nat): (r: Option<(nat, nat)>)
    decreases |a| - i
  {
    if i >= |a| then None
    else match FirstWithin(b, a[i])
      case Some(j) => Some((i, j))
      case None => FirstMatchFrom(a, b, i + 1)
  }

  /** Whether two times lie within half a sample period of each other. */
  predicate Coincide(t0: real, t1: real)
  {
    Abs(t1 - t0) < HalfSamplePeriodS
  }

  /** There is no match exactly when no two lines of sight coincide in time. */
  lemma {:induction false} FirstMatchNone(a: seq<real>, b: seq<real>, i: nat)
    ensures FirstMatchFrom(a, b, i).None? <==>
      forall p, q :: i <= p < |a| && 0 <= q < |b| ==> !Coincide(a[p], b[q])
    decreases |a| - i
  {
    if i < |a| {
      var j := FirstWithin(b, a[i]);
      if j.None? {
        FirstMatchNone(a, b, i + 1);
        assert forall q :: 0 <= q < |b| ==> !Coincide(a[i], b[q]);
      } else {
        assert Coincide(a[i], b[j.value]);
      }
    }
  }

  /** The match is the earliest line of sight of the first satellite with a
      partner, paired with its earliest partner. */
  lemma {:induction false} FirstMatchEarliest(a: seq<real>, b: seq<real>, i: nat)
    ensures FirstMatchFrom(a, b, i).Some? ==>
      var (p, q) := FirstMatchFrom(a, b, i).value;
      i <= p < |a| && q < |b| && Coincide(a[p], b[q]) &&
      (forall p', q' :: i <= p' < p && 0 <= q' < |b| ==> !Coincide(a[p'], b[q'])) &&
      forall q' :: 0 <= q' < q ==> !Coincide(a[p], b[q'])
    decreases |a| - i
  {
    if i < |a| {
      var j := FirstWithin(b, a[i]);
      if j.None? {
        FirstMatchEarliest(a, b, i + 1);
        assert forall q :: 0 <= q < |b| ==> !Coincide(a[i], b[q]);
      }
    }
  }

  /** The loop of `mark_low_atl_clusters` over the first satellite's lines of
      sight, up to the first one with a partner. */
  method MatchTimes(a: seq<real>, b: seq<real>) returns (r: Option<(nat, nat)>)
    ensures r == FirstMatchFrom(a, b, 0)
  {
    var i := 0;
    while i < |a|
      invariant i <= |a| && FirstMatchFrom(a, b, i) == FirstMatchFrom(a, b, 0)
    {
      var j := FirstWithin(b, a[i]);
      if j.Some? {
        return Some((i, j.value));
      }
      i := i + 1;
    }
    return None;
  }

  /** The stereo analysis of one cluster: the detections of its two compared
      satellites and the midpoint of the closest approach of the first two
      lines of sight that coincide in time. */
  datatype StereoEstimate = StereoEstimate(mask: seq<bool>, point: Vec3)

  /** What `mark_low_altitude_stereo_events` computes for the cluster with
      member mask `m`: nothing when the cluster has no stereo pair or no two
      lines of sight coincide in time. */
  function Estimate(d: Detections, m: seq<bool>, nonParallel: (Vec3, Vec3) -> bool, maxNum: nat): (r: Option<StereoEstimate>)
    requires d.Valid() && |m| == |d.sat|
    ensures r.Some? ==> |r.value.mask| == |m| && forall k :: 0 <= k < |m| && r.value.mask[k] ==> m[k]
  {
    var pair := StereoSats(d, m, nonParallel);
    var m2 := And(m, InMask(d.sat, pair));
    if pair == [] || CountTrue(m2) == 0 then None
    else
      var k := PeakIndex(d, m2);
      var order := [d.sat[k]] + Without(pair, d.sat[k]);
      if |order| < 2 then None
      else
        var t0 := NearestTrack(d, m2, order[0], d.time[k], maxNum);
        var t1 := NearestTrack(d, m2, order[1], d.time[k], maxNum);
        if t0.None? || t1.None? then None
        else
          match FirstMatchFrom(t0.value.times, t1.value.times, 0)
          case None => None
          case Some((i, j)) =>
            FirstMatchEarliest(t0.value.times, t1.value.times, 0);
            var a, b := t0.value, t1.value;
            var pair := VelocityHelpers.LosPair(a.times[i], a.high[i], a.low[i], b.times[j], b.high[j], b.low[j]);
            Some(StereoEstimate(m2, VelocityHelpers.NearestApproachPoint(pair)))
  }

  /** The filter as a cluster marking: the compared satellites' detections
      of a cluster whose estimate lies below `threshold`. */
  function LowAltitudeMarks(d: Detections, nonParallel: (Vec3, Vec3) -> bool, altitude: Vec3 -> real,
                            maxNum: nat, threshold: real): (int, seq<bool>) -> seq<bool>
  {
    (c: int, m: seq<bool>) =>
      if d.Valid() && |m| == |d.sat| then
        var e := Estimate(d, m, nonParallel, maxNum);
        if e.Some? && altitude(e.value.point) < threshold then e.value.mask else []
      else []
  }

  /** A detection becomes bad exactly when it was bad, or its cluster has a
      stereo estimate below the threshold and the detection is one of the
      two compared satellites; the rest of the cluster keeps its id. */
  lemma LowAltitudeProps(ids: seq<int>, d: Detections, nonParallel: (Vec3, Vec3) -> bool, altitude: Vec3 -> real,
                         maxNum: nat, threshold: real, k: nat)
    requires d.Valid() && |ids| == |d.sat| && k < |ids|
    ensures var r := GlmMarking.Marked(ids, LowAltitudeMarks(d, nonParallel, altitude, maxNum, threshold));
      var e := Estimate(d, EqualMask(ids, ids[k]), nonParallel, maxNum);
      (r[k] == GlmMarking.BadClusterId <==>
        ids[k] == GlmMarking.BadClusterId ||
        (e.Some? && altitude(e.value.point) < threshold && d.sat[k] in StereoSats(d, EqualMask(ids, ids[k]), nonParallel))) &&
      (r[k] != GlmMarking.BadClusterId ==> r[k] == ids[k])
  {
  }

  /** The cluster location a stereo estimate stores, keyed by cluster id. */
  function EstimatedPoint(ids: seq<int>, d: Detections, nonParallel: (Vec3, Vec3) -> bool, maxNum: nat): int -> Option<Vec3>
  {
    c =>
      if d.Valid() && |ids| == |d.sat| then
        var e := Estimate(d, EqualMask(ids, c), nonParallel, maxNum);
        if e.Some? then Some(e.value.point) else None
      else None
  }

  /** Whether a loop over the cluster ids `cs` stores an estimate for cluster `c`. */
  predicate Stored<V>(cs: seq<int>, est: int -> Option<V>, c: int)
  {
    c != GlmMarking.BadClusterId && c in cs && est(c).Some?
  }

  /** The dictionary writes of a loop over the cluster ids `cs`
      (`self.location_ecef_m[str(cluster_id)] = ...`, and likewise for the
      velocities): every good listed cluster with an estimate gets it, and
      every other entry is kept. */
  method StoreEstimates<V>(store: map<int, V>, cs: seq<int>, est: int -> Option<V>) returns (r: map<int, V>)
    ensures forall c :: c in r <==> c in store || Stored(cs, est, c)
    ensures forall c :: c in r ==> r[c] == if Stored(cs, est, c) then est(c).value else store[c]
  {
    r := store;
    for i := 0 to |cs|
      invariant forall c :: c in r <==> c in store || (c in cs[..i] && Stored(cs, est, c))
      invariant forall c :: c in r ==> r[c] == if c in cs[..i] && Stored(cs, est, c) then est(c).value else store[c]
    {
      var c := cs[i];
      PrefixStep(cs, i);
      if c != GlmMarking.BadClusterId {
        var e := est(c);
        if e.Some? {
          r := r[c := e.value];
        }
      }
    }
    PrefixAll(cs);
  }
}
