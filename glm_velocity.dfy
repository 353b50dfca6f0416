/** Velocity estimation of `GlmDataSet`: the stereo lines of sight of a
    triggering cluster, their association in time, the straight-line fit
    through the nearest-approach points, and the speed limit on accepting
    the fit. */
module GlmVelocity {
  import opened Wrappers
  import opened RealMath
  import opened ArrayOps
  import MathHelpers
  import VelocityHelpers
  import GlmMarking
  import GlmStereo

  /** Percentage of the peak energy below which a line of sight is ignored. */
  const EnergyPercentFloor: real := 10.0

  /** Fewer associated pairs than this give no estimate. */
  const MinNumPointsForVelEstimate: nat := 13

  /** The largest speed accepted (kilometres per second). */
  const MaxSpeedThresholdKmps: real := 100.0

  // ---------------------------------------------------------------------
  // find_stereo_in_cluster_bools

  /** How many events have `g` as their parent group. */
  function GroupSize(parents: seq<int>, g: int): nat
  {
    CountTrue(EqualMask(parents, g))
  }

  /** Whether detection `k` of the cluster qualifies for velocity estimation:
      seen by a satellite of the stereo pair, above the energy floor, in a
      group of more than one event, and marked fit and highest. */
  predicate StereoQualifies(d: GlmStereo.Detections, parents: seq<int>, m: seq<bool>, pair: seq<int>, floor: real, k: nat)
    requires d.Valid() && |m| == |d.sat| && k < |m|
  {
    m[k] && d.sat[k] in pair && d.energy[k] > floor && GroupSize(parents, d.group[k]) > 1 &&
    d.fitness[k] == 1 && d.highest[k] == 1
  }

  /** The energy floor of the selection: a tenth of its largest energy. */
  function EnergyFloor(d: GlmStereo.Detections, m2: seq<bool>): (floor: real)
    requires d.Valid() && |m2| == |d.sat| && CountTrue(m2) > 0
  {
    MathHelpers.SeqMax(Select(d.energy, m2)) * (EnergyPercentFloor / 100.0)
  }

  /** The detections of the selection above the floor. */
  function AboveFloor(d: GlmStereo.Detections, m2: seq<bool>, floor: real): (r: seq<bool>)
    requires d.Valid() && |m2| == |d.sat|
    ensures |r| == |m2| && forall k :: 0 <= k < |m2| ==> (r[k] <==> m2[k] && d.energy[k] > floor)
  {
    seq(|m2|, k requires 0 <= k < |m2| => m2[k] && d.energy[k] > floor)
  }

  /** The detections that qualify. */
  function Qualifying(d: GlmStereo.Detections, parents: seq<int>, m: seq<bool>, pair: seq<int>, floor: real): (r: seq<bool>)
    requires d.Valid() && |m| == |d.sat|
    ensures |r| == |m| && forall k :: 0 <= k < |m| ==> (r[k] <==> StereoQualifies(d, parents, m, pair, floor, k))
  {
    seq(|m|, k requires 0 <= k < |m| => StereoQualifies(d, parents, m, pair, floor, k))
  }

  /** `find_stereo_in_cluster_bools` for the cluster with member mask `m`:
      nothing when the cluster is empty, has no stereo pair or nothing above
      the energy floor; otherwise the qualifying detections. */
  function StereoMask(d: GlmStereo.Detections, parents: seq<int>, m: seq<bool>, nonParallel: (Vec3, Vec3) -> bool): (r: Option<seq<bool>>)
    requires d.Valid() && |m| == |d.sat|
    ensures r.Some? ==> |r.value| == |m| && forall k :: 0 <= k < |m| && r.value[k] ==> m[k] && d.fitness[k] == 1 && d.highest[k] == 1
  {
    if CountTrue(m) == 0 then None
    else
      var pair := GlmStereo.StereoSats(d, m, nonParallel);
      var m2 := And(m, InMask(d.sat, pair));
      if pair == [] || CountTrue(m2) == 0 then None
      else
        var floor := EnergyFloor(d, m2);
        if CountTrue(AboveFloor(d, m2, floor)) == 0 then None
        else Some(Qualifying(d, parents, m, pair, floor))
  }

  // ---------------------------------------------------------------------
  // get_stereo_los_data

  /** The lines of sight of satellite `s` inside `sel`, sorted by time. */
  function LosOf(d: GlmStereo.Detections, sel: seq<bool>, s: int): (r: VelocityHelpers.LosData)
    requires d.Valid() && |sel| == |d.sat|
    ensures r.Valid() && |r.times| == CountTrue(And(sel, EqualMask(d.sat, s)))
    ensures forall a, b :: 0 <= a < b < |r.times| ==> r.times[a] <= r.times[b]
  {
    var ss := And(sel, EqualMask(d.sat, s));
    var ts := Select(d.time, ss);
    var idx := ArgSort(ts);
    VelocityHelpers.LosData(Gather(ts, idx), Gather(Select(d.high, ss), idx), Gather(Select(d.low, ss), idx))
  }

  /** The detection counts of the distinct satellites of `sel`, as reals for `np.argmin`. */
  function SatCounts(d: GlmStereo.Detections, sel: seq<bool>, us: seq<int>): (r: seq<real>)
    requires d.Valid() && |sel| == |d.sat|
    ensures |r| == |us| && forall i :: 0 <= i < |us| ==> r[i] == CountTrue(And(sel, EqualMask(d.sat, us[i]))) as real
  {
    seq(|us|, i requires 0 <= i < |us| => CountTrue(And(sel, EqualMask(d.sat, us[i]))) as real)
  }

  /** `get_stereo_los_data`: the lines of sight of the satellite with the
      fewest detections (the first such id) and of the smallest other
      satellite id; nothing when fewer than two satellites remain. */
  function StereoLosData(d: GlmStereo.Detections, sel: seq<bool>): (r: Option<(int, int)>)
    requires d.Valid() && |sel| == |d.sat|
    ensures r.Some? ==> r.value.0 != r.value.1 &&
                        r.value.0 in Select(d.sat, sel) && r.value.1 in Select(d.sat, sel) &&
                        CountTrue(And(sel, EqualMask(d.sat, r.value.0))) <= CountTrue(And(sel, EqualMask(d.sat, r.value.1)))
    ensures r.None? <==> |Unique(Select(d.sat, sel))| <= 1
  {
    var us := Unique(Select(d.sat, sel));
    if |us| <= 1 then None
    else
      var counts := SatCounts(d, sel, us);
      var least := us[ArgMin(counts)];
      var others := GlmStereo.Without(us, least);
      assert us[0] != least || us[1] != least by {
        assert us[0] < us[1];
      }
      assert us[0] in others || us[1] in others;
      var most := others[0];
      assert most in us;
      var j :| 0 <= j < |us| && us[j] == most;
      assert counts[ArgMin(counts)] <= counts[j];
      Some((least, most))
  }

  // ---------------------------------------------------------------------
  // estimate_velocities

  /** `np.linalg.norm(v) / 1000 > MAX_SPEED_THRESHOLD_KMPS`, squared so that no
      root is needed. */
  predicate TooFast(v: Vec3)
  {
    NormSq(v) > (MaxSpeedThresholdKmps * 1000.0) * (MaxSpeedThresholdKmps * 1000.0)
  }

  /** The squared comparison agrees with the comparison of the norm itself. */
  lemma TooFastIsSpeed(v: Vec3, norm: real)
    requires norm >= 0.0 && norm * norm == NormSq(v)
    ensures TooFast(v) <==> norm / 1000.0 > MaxSpeedThresholdKmps
  {
    var lim := MaxSpeedThresholdKmps * 1000.0;
    assert norm / 1000.0 > MaxSpeedThresholdKmps <==> norm > lim;
    if norm > lim {
      SquareLess(lim, norm);
    } else {
      SquareAtMost(norm, lim);
    }
  }

  lemma SquareLess(a: real, b: real)
    requires 0.0 <= a < b
    ensures a * a < b * b
  {
    MulPos(b - a, b + a);
    assert (b - a) * (b + a) == b * b - a * a;
  }

  lemma SquareAtMost(a: real, b: real)
    requires 0.0 <= a <= b
    ensures a * a <= b * b
  {
    assert a * a <= a * b;
    assert a * b <= b * b;
  }

  /** The smallest time of a non-empty list. */
  function MinTime(ts: seq<real>): (r: real)
    requires |ts| > 0
    ensures forall i :: 0 <= i < |ts| ==> r <= ts[i]
  {
    MathHelpers.SeqMin(ts)
  }

  /** The intersection times, shifted to start at zero. */
  function Shifted(ts: seq<real>): (r: seq<real>)
    requires |ts| > 0
    ensures |r| == |ts| && forall i :: 0 <= i < |ts| ==> r[i] >= 0.0
  {
    var t0 := MinTime(ts);
    seq(|ts|, i requires 0 <= i < |ts| => ts[i] - t0)
  }

  /** The straight-line fit through the nearest-approach points of the
      pairs, kept only under the speed limit. */
  function FitPairs(pairs: seq<VelocityHelpers.LosPair>): (v: Option<Vec3>)
    ensures v.Some? ==> !TooFast(v.value)
  {
    if |pairs| < MinNumPointsForVelEstimate then None
    else
      var points := seq(|pairs|, i requires 0 <= i < |pairs| => VelocityHelpers.NearestApproachPoint(pairs[i]));
      var times := seq(|pairs|, i requires 0 <= i < |pairs| => VelocityHelpers.NearestApproachTime(pairs[i]));
      match VelocityHelpers.EstimateVelocity(Shifted(times), points)
      case None => None
      case Some(vel) => if TooFast(vel) then None else Some(vel)
  }

  /** The associated pairs of the two satellites' lines of sight. */
  function PairsOf(d: GlmStereo.Detections, sel: seq<bool>, least: int, most: int): seq<VelocityHelpers.LosPair>
    requires d.Valid() && |sel| == |d.sat| && most in Select(d.sat, sel)
  {
    var a, b := LosOf(d, sel, least), LosOf(d, sel, most);
    assert |b.times| > 0 by {
      SelectMembers(d.sat, sel);
      var k :| 0 <= k < |sel| && sel[k] && most == d.sat[k];
      MaskNonEmpty(And(sel, EqualMask(d.sat, most)), k);
    }
    VelocityHelpers.Associated(a, b, |a.times|)
  }

  /** The velocity `estimate_velocities` stores for the cluster with member
      mask `m`: none when there is no stereo selection, fewer than
      `MinNumPointsForVelEstimate` associated pairs, a singular fit or a
      speed above the limit. */
  function VelocityOf(d: GlmStereo.Detections, parents: seq<int>, m: seq<bool>, nonParallel: (Vec3, Vec3) -> bool): (v: Option<Vec3>)
    requires d.Valid() && |m| == |d.sat|
    ensures v.Some? ==> !TooFast(v.value)
  {
    match StereoMask(d, parents, m, nonParallel)
    case None => None
    case Some(sel) =>
      if CountTrue(sel) == 0 then None
      else match StereoLosData(d, sel)
        case None => None
        case Some((least, most)) => FitPairs(PairsOf(d, sel, least, most))
  }

  /** The estimate for each cluster id, from its current member mask. */
  function VelocityFor(ids: seq<int>, d: GlmStereo.Detections, parents: seq<int>, nonParallel: (Vec3, Vec3) -> bool): int -> Option<Vec3>
  {
    c => if d.Valid() && |ids| == |d.sat| then VelocityOf(d, parents, EqualMask(ids, c), nonParallel) else None
  }

  /** Every velocity `estimate_velocities` can store is under the speed limit. */
  lemma StoredVelocitiesAreSlow(ids: seq<int>, d: GlmStereo.Detections, parents: seq<int>, nonParallel: (Vec3, Vec3) -> bool, c: int)
    requires VelocityFor(ids, d, parents, nonParallel)(c).Some?
    ensures !TooFast(VelocityFor(ids, d, parents, nonParallel)(c).value)
  {
  }

  /** `get_event_velocity`: the stored velocity, or the zero vector. */
  function EventVelocity(vel: map<int, Vec3>, c: int): (v: Vec3)
    ensures c !in vel ==> v == Vec3(0.0, 0.0, 0.0)
    ensures c in vel ==> v == vel[c]
  {
    if c in vel then vel[c] else Vec3(0.0, 0.0, 0.0)
  }
}
