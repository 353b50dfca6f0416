/** Stereo velocity estimation: pairing the lines of sight of two satellites
    by time, the nearest-approach points of each pair, and the least-squares
    constant-velocity fit. */
module VelocityHelpers {
  import opened RealMath
  import opened Wrappers
  import GeoHelpers

  /** Lines of sight of two satellites closer in time than this are associated (seconds). */
  const AssociationWindow: real := 0.02

  /** The lines of sight of one satellite: times and the high and low altitude ends, co-indexed. */
  datatype LosData = LosData(times: seq<real>, high: seq<Vec3>, low: seq<Vec3>)
  {
    predicate Valid() { |times| == |high| == |low| }
  }

  /** One associated pair: the time and ends of a line of sight of each satellite. */
  datatype LosPair = LosPair(t0: real, high0: Vec3, low0: Vec3, t1: real, high1: Vec3, low1: Vec3)

  /** `np.argmin(np.abs(ts - t))`: the first index of a time nearest to `t`. */
  function Nearest(ts: seq<real>, t: real): (k: nat)
    requires |ts| > 0
    ensures k < |ts|
    ensures forall j :: 0 <= j < |ts| ==> Abs(ts[k] - t) <= Abs(ts[j] - t)
    ensures forall j :: 0 <= j < k ==> Abs(ts[j] - t) > Abs(ts[k] - t)
  {
    if |ts| == 1 then 0
    else
      var k := Nearest(ts[..|ts| - 1], t);
      if Abs(ts[|ts| - 1] - t) < Abs(ts[k] - t) then |ts| - 1 else k
  }

  /** The pairs `associate_los_vectors` produces from the first `n` lines of sight of `least`. */
  function Associated(least: LosData, most: LosData, n: nat): seq<LosPair>
    requires least.Valid() && most.Valid() && |most.times| > 0 && n <= |least.times|
  {
    if n == 0 then []
    else
      var rest := Associated(least, most, n - 1);
      var i := n - 1;
      var k := Nearest(most.times, least.times[i]);
      if Abs(most.times[k] - least.times[i]) < AssociationWindow
      then rest + [LosPair(least.times[i], least.high[i], least.low[i], most.times[k], most.high[k], most.low[k])]
      else rest
  }

  /** `associate_los_vectors`: for each line of sight of the satellite with fewer samples,
      the nearest-in-time line of sight of the other one, when it lies inside the window. */
  method AssociateLosVectors(least: LosData, most: LosData) returns (pairs: seq<LosPair>)
    requires least.Valid() && most.Valid() && |most.times| > 0
    ensures pairs == Associated(least, most, |least.times|)
  {
    pairs := [];
    for i := 0 to |least.times|
      invariant pairs == Associated(least, most, i)
    {
      var t := least.times[i];
      var k := Nearest(most.times, t);
      if Abs(most.times[k] - t) < AssociationWindow {
        pairs := pairs + [LosPair(t, least.high[i], least.low[i], most.times[k], most.high[k], most.low[k])];
      }
    }
  }

  /** Pair `p` joins line of sight `i` of `least` with the first nearest line of sight of `most`. */
  predicate FromSample(least: LosData, most: LosData, p: LosPair, i: int)
    requires least.Valid() && most.Valid() && |most.times| > 0
  {
    0 <= i < |least.times|
    && p.t0 == least.times[i] && p.high0 == least.high[i] && p.low0 == least.low[i]
    && var k := Nearest(most.times, least.times[i]);
       p.t1 == most.times[k] && p.high1 == most.high[k] && p.low1 == most.low[k]
  }

  /** The pairing: at most one pair per line of sight of `least`, each pair inside the window,
      and each pair made of a line of sight of `least` and the first nearest one of `most`. */
  lemma {:induction false} AssociatedProperties(least: LosData, most: LosData, n: nat)
    requires least.Valid() && most.Valid() && |most.times| > 0 && n <= |least.times|
    ensures |Associated(least, most, n)| <= n
    ensures forall p :: p in Associated(least, most, n) ==> Abs(p.t1 - p.t0) < AssociationWindow
    ensures forall p :: p in Associated(least, most, n) ==> exists i :: 0 <= i < n && FromSample(least, most, p, i)
  {
    if n > 0 {
      AssociatedProperties(least, most, n - 1);
      var rest := Associated(least, most, n - 1);
      var i := n - 1;
      var k := Nearest(most.times, least.times[i]);
      var q := LosPair(least.times[i], least.high[i], least.low[i], most.times[k], most.high[k], most.low[k]);
      forall p | p in Associated(least, most, n)
        ensures exists i :: 0 <= i < n && FromSample(least, most, p, i)
      {
        if p !in rest {
          assert p == q && FromSample(least, most, p, n - 1);
        }
      }
    }
  }

  /** Pairs keep the order of the lines of sight of `least`: the pair times strictly follow
      the sample order when the samples are in increasing time. */
  lemma {:induction false} AssociatedSorted(least: LosData, most: LosData, n: nat)
    requires least.Valid() && most.Valid() && |most.times| > 0 && n <= |least.times|
    requires forall i, j :: 0 <= i < j < |least.times| ==> least.times[i] < least.times[j]
    ensures forall a, b :: 0 <= a < b < |Associated(least, most, n)| ==>
      Associated(least, most, n)[a].t0 < Associated(least, most, n)[b].t0
  {
    if n > 0 {
      AssociatedSorted(least, most, n - 1);
      AssociatedProperties(least, most, n - 1);
      var rest := Associated(least, most, n - 1);
      forall a | 0 <= a < |rest| ensures rest[a].t0 < least.times[n - 1] {
        assert rest[a] in rest;
        var i :| 0 <= i < n - 1 && FromSample(least, most, rest[a], i);
      }
    }
  }

  /** What `compute_nearest_approach_points` returns for the pairs. */
  datatype Approach = Approach(points: seq<Vec3>, lats: seq<real>, lons: seq<real>, alts: seq<real>, times: seq<real>)

  /** The midpoint of the shortest segment between the two lines of sight of a pair. */
  function NearestApproachPoint(p: LosPair): (m: Vec3)
    ensures var c := GeoHelpers.Dist3dSegmentToSegment(p.high0, p.low0, p.high1, p.low1);
      Sub(m, c.seg1p) == Sub(c.seg2p, m)
  {
    var c := GeoHelpers.Dist3dSegmentToSegment(p.high0, p.low0, p.high1, p.low1);
    Midpoint(c.seg1p, c.seg2p)
  }

  /** The time of a pair: the mean of its two times, halfway between them. */
  function NearestApproachTime(p: LosPair): (t: real)
    ensures t - p.t0 == p.t1 - t
  {
    (p.t0 + p.t1) / 2.0
  }

  /** `compute_nearest_approach_points`: for each pair, the midpoint of the shortest segment
      between the two lines of sight, its geodetic coordinates (by the conversion `geodetic`,
      which is not modelled) and the mean of the two times. */
  method ComputeNearestApproachPoints(pairs: seq<LosPair>, geodetic: Vec3 -> (real, real, real))
    returns (r: Approach)
    ensures |r.points| == |r.lats| == |r.lons| == |r.alts| == |r.times| == |pairs|
    ensures forall i :: 0 <= i < |pairs| ==>
      r.points[i] == NearestApproachPoint(pairs[i]) && r.times[i] == NearestApproachTime(pairs[i])
    ensures forall i :: 0 <= i < |pairs| ==> (r.lats[i], r.lons[i], r.alts[i]) == geodetic(r.points[i])
  {
    var n := |pairs|;
    var points := seq(n, _ => Vec3(0.0, 0.0, 0.0));
    var lats, lons, alts, times := seq(n, _ => 0.0), seq(n, _ => 0.0), seq(n, _ => 0.0), seq(n, _ => 0.0);
    for i := 0 to n
      invariant |points| == |lats| == |lons| == |alts| == |times| == n
      invariant forall j :: 0 <= j < i ==> points[j] == NearestApproachPoint(pairs[j])
      invariant forall j :: 0 <= j < i ==> times[j] == NearestApproachTime(pairs[j])
      invariant forall j :: 0 <= j < i ==> (lats[j], lons[j], alts[j]) == geodetic(points[j])
    {
      var mid := NearestApproachPoint(pairs[i]);
      points := points[i := mid];
      var g := geodetic(mid);
      lats, lons, alts := lats[i := g.0], lons[i := g.1], alts[i := g.2];
      times := times[i := NearestApproachTime(pairs[i])];
    }
    r := Approach(points, lats, lons, alts, times);
  }

  // ---------------------------------------------------------------------
  // estimate_velocity

  /** The sum of the first `k` entries. */
  function SumTo(xs: seq<real>, k: nat): real
    requires k <= |xs|
  {
    if k == 0 then 0.0 else SumTo(xs, k - 1) + xs[k - 1]
  }

  /** The pointwise products t_i x_i. */
  function Products(ts: seq<real>, xs: seq<real>): (r: seq<real>)
    requires |ts| == |xs|
    ensures |r| == |ts|
  {
    seq(|ts|, i requires 0 <= i < |ts| => ts[i] * xs[i])
  }

  function Sum(xs: seq<real>): real { SumTo(xs, |xs|) }

  function SumProd(ts: seq<real>, xs: seq<real>): real
    requires |ts| == |xs|
  {
    Sum(Products(ts, xs))
  }

  /** The determinant of T'T for the design matrix T = [1, t]. */
  function Det(ts: seq<real>): real
  {
    |ts| as real * SumProd(ts, ts) - Sum(ts) * Sum(ts)
  }

  /** The second row of (T'T)^-1 T'x, on the sums. */
  function SlopeFormula(n: real, st: real, sx: real, stx: real, det: real): real
    requires det != 0.0
  {
    (n * stx - st * sx) / det
  }

  /** The slope of the least-squares line through (t_i, x_i), from (T'T)^-1 T'x;
      `None` where T'T is singular (`np.linalg.inv` raises). */
  function Slope(ts: seq<real>, xs: seq<real>): (r: Option<real>)
    requires |ts| == |xs|
    ensures r.None? <==> Det(ts) == 0.0
  {
    if Det(ts) == 0.0 then None
    else Some(SlopeFormula(|ts| as real, Sum(ts), Sum(xs), SumProd(ts, xs), Det(ts)))
  }

  function Coord(ps: seq<Vec3>, axis: nat): (r: seq<real>)
    requires axis < 3
    ensures |r| == |ps|
  {
    seq(|ps|, i requires 0 <= i < |ps| => if axis == 0 then ps[i].x else if axis == 1 then ps[i].y else ps[i].z)
  }

  /** `estimate_velocity`: the fitted constant velocity, one least-squares slope per axis. */
  function EstimateVelocity(times: seq<real>, points: seq<Vec3>): (v: Option<Vec3>)
    requires |times| == |points|
    ensures v.None? <==> Det(times) == 0.0
    ensures v.Some? ==>
      (Slope(times, Coord(points, 0)) == Some(v.value.x)
       && Slope(times, Coord(points, 1)) == Some(v.value.y)
       && Slope(times, Coord(points, 2)) == Some(v.value.z))
  {
    match (Slope(times, Coord(points, 0)), Slope(times, Coord(points, 1)), Slope(times, Coord(points, 2)))
    case (Some(vx), Some(vy), Some(vz)) => Some(Vec3(vx, vy, vz))
    case _ => None
  }

  /** Positions on a straight line at constant velocity. */
  ghost predicate OnLine(ts: seq<real>, ps: seq<Vec3>, p0: Vec3, vel: Vec3)
  {
    |ts| == |ps| && forall i :: 0 <= i < |ts| ==> ps[i] == Add(p0, Scale(ts[i], vel))
  }

  /** Values x_i = x0 + v t_i. */
  ghost predicate Linear(ts: seq<real>, xs: seq<real>, x0: real, v: real)
    requires |ts| == |xs|
  {
    forall i :: 0 <= i < |ts| ==> xs[i] == x0 + v * ts[i]
  }

  /** A sum of a linear combination is the linear combination of the sums. */
  lemma {:induction false} SumCombination(a: seq<real>, b: seq<real>, c: seq<real>, p: real, q: real, k: nat)
    requires k <= |a| == |b| == |c|
    requires forall i :: 0 <= i < |c| ==> c[i] == p * a[i] + q * b[i]
    ensures SumTo(c, k) == p * SumTo(a, k) + q * SumTo(b, k)
  {
    if k > 0 {
      SumCombination(a, b, c, p, q, k - 1);
      CombinationStep(p, q, SumTo(a, k - 1), SumTo(b, k - 1), a[k - 1], b[k - 1]);
    }
  }

  lemma CombinationStep(p: real, q: real, sa: real, sb: real, x: real, y: real)
    ensures p * sa + q * sb + (p * x + q * y) == p * (sa + x) + q * (sb + y)
  {
  }

  /** `k` ones sum to `k`. */
  lemma {:induction false} SumOnes(a: seq<real>, k: nat)
    requires k <= |a|
    requires forall i :: 0 <= i < |a| ==> a[i] == 1.0
    ensures SumTo(a, k) == k as real
  {
    if k > 0 { SumOnes(a, k - 1); }
  }

  lemma ExpandProduct(t: real, x: real, x0: real, v: real)
    requires x == x0 + v * t
    ensures t * x == x0 * t + v * (t * t)
  {
  }

  /** The sums of linear data, in terms of the sums of the times. */
  lemma LinearSums(ts: seq<real>, xs: seq<real>, x0: real, v: real)
    requires |ts| == |xs| && Linear(ts, xs, x0, v)
    ensures Sum(xs) == |ts| as real * x0 + v * Sum(ts)
    ensures SumProd(ts, xs) == x0 * Sum(ts) + v * SumProd(ts, ts)
  {
    LinearSumOfValues(ts, xs, x0, v);
    LinearProducts(ts, xs, x0, v);
    LinearSumOfProducts(ts, xs, x0, v);
  }

  lemma LinearSumOfValues(ts: seq<real>, xs: seq<real>, x0: real, v: real)
    requires |ts| == |xs| && Linear(ts, xs, x0, v)
    ensures Sum(xs) == |ts| as real * x0 + v * Sum(ts)
  {
    var ones := seq(|ts|, _ => 1.0);
    SumOnes(ones, |ts|);
    SumCombination(ones, ts, xs, x0, v, |ts|);
  }

  lemma LinearSumOfProducts(ts: seq<real>, xs: seq<real>, x0: real, v: real)
    requires |ts| == |xs|
    requires forall i :: 0 <= i < |ts| ==> Products(ts, xs)[i] == x0 * ts[i] + v * Products(ts, ts)[i]
    ensures SumProd(ts, xs) == x0 * Sum(ts) + v * SumProd(ts, ts)
  {
    SumCombination(ts, Products(ts, ts), Products(ts, xs), x0, v, |ts|);
  }

  lemma LinearProducts(ts: seq<real>, xs: seq<real>, x0: real, v: real)
    requires |ts| == |xs| && Linear(ts, xs, x0, v)
    ensures forall i :: 0 <= i < |ts| ==> Products(ts, xs)[i] == x0 * ts[i] + v * Products(ts, ts)[i]
  {
    forall i | 0 <= i < |ts| ensures Products(ts, xs)[i] == x0 * ts[i] + v * Products(ts, ts)[i] {
      ExpandProduct(ts[i], xs[i], x0, v);
    }
  }

  /** The slope numerator of linear data is the slope times the determinant. */
  lemma SlopeAlgebra(n: real, st: real, stt: real, sx: real, stx: real, x0: real, v: real)
    requires sx == n * x0 + v * st && stx == x0 * st + v * stt
    ensures n * stx - st * sx == v * (n * stt - st * st)
  {
    assert n * stx == n * (x0 * st) + n * (v * stt);
    assert st * sx == st * (n * x0) + st * (v * st);
    assert n * (x0 * st) == st * (n * x0);
    assert n * (v * stt) - st * (v * st) == v * (n * stt - st * st);
  }

  /** The least-squares slope formula applied to the sums of linear data. */
  lemma SlopeOfLinear(n: real, st: real, stt: real, sx: real, stx: real, x0: real, v: real, d: real)
    requires sx == n * x0 + v * st && stx == x0 * st + v * stt
    requires d == n * stt - st * st && d != 0.0
    ensures SlopeFormula(n, st, sx, stx, d) == v
  {
    SlopeAlgebra(n, st, stt, sx, stx, x0, v);
    var num := n * stx - st * sx;
    assert num == v * d;
    DivMul(num, d);
    CancelFactorNonZero(num / d, v, d);
  }

  /** Exactly linear data gives back its own slope. */
  lemma ExactSlope(ts: seq<real>, xs: seq<real>, x0: real, v: real)
    requires |ts| == |xs| && Det(ts) != 0.0 && Linear(ts, xs, x0, v)
    ensures Slope(ts, xs) == Some(v)
  {
    LinearSums(ts, xs, x0, v);
    SlopeOfSums(ts, xs, x0, v);
  }

  lemma SlopeOfSums(ts: seq<real>, xs: seq<real>, x0: real, v: real)
    requires |ts| == |xs| && Det(ts) != 0.0
    requires Sum(xs) == |ts| as real * x0 + v * Sum(ts)
    requires SumProd(ts, xs) == x0 * Sum(ts) + v * SumProd(ts, ts)
    ensures Slope(ts, xs) == Some(v)
  {
    SlopeOfLinear(|ts| as real, Sum(ts), SumProd(ts, ts), Sum(xs), SumProd(ts, xs), x0, v, Det(ts));
  }

  lemma CancelFactorNonZero(a: real, b: real, m: real)
    requires m != 0.0 && a * m == b * m
    ensures a == b
  {
    if m > 0.0 { CancelFactor(a, b, m); }
    else {
      assert a * (-m) == b * (-m);
      CancelFactor(a, b, -m);
    }
  }

  /** Points moving at a constant velocity give that velocity back. */
  lemma ExactVelocity(ts: seq<real>, ps: seq<Vec3>, p0: Vec3, vel: Vec3)
    requires OnLine(ts, ps, p0, vel) && Det(ts) != 0.0
    ensures EstimateVelocity(ts, ps) == Some(vel)
  {
    CoordOnLine(ts, ps, p0, vel, 0);
    CoordOnLine(ts, ps, p0, vel, 1);
    CoordOnLine(ts, ps, p0, vel, 2);
  }

  lemma CoordOnLine(ts: seq<real>, ps: seq<Vec3>, p0: Vec3, vel: Vec3, axis: nat)
    requires OnLine(ts, ps, p0, vel) && Det(ts) != 0.0 && axis < 3
    ensures Slope(ts, Coord(ps, axis)) == Some(if axis == 0 then vel.x else if axis == 1 then vel.y else vel.z)
  {
    var x0 := if axis == 0 then p0.x else if axis == 1 then p0.y else p0.z;
    var v := if axis == 0 then vel.x else if axis == 1 then vel.y else vel.z;
    var xs := Coord(ps, axis);
    forall i | 0 <= i < |ts| ensures xs[i] == x0 + v * ts[i] {
      assert ps[i] == Add(p0, Scale(ts[i], vel));
    }
    ExactSlope(ts, xs, x0, v);
  }
}
