/** The per-cluster position and energy getters of `GlmDataSet`, and the
    GOES-19 anomaly filter built on the position. */
module GlmPosition {
  import opened Wrappers
  import opened RealMath
  import opened ArrayOps
  import MathHelpers
  import VelocityHelpers
  import GlmMarking
  import GlmStereo

  /** The assumed altitude of a cluster without a stereo estimate (metres). */
  const DefaultNonstereoAltitudeM: real := 32000.0

  /** The satellite whose sensor anomalies the filter removes. */
  const Goes19SatId: int := 19

  /** The (latitude, longitude) of the known GOES-19 anomalies (degrees). */
  const Goes19AnomalyLatLons: seq<(real, real)> := [(-21.2, -121.4), (3.4, -127.9)]

  /** Half the width of the window around each anomaly (degrees). */
  const Goes19AnomalyToleranceDeg: real := 0.5

  // ---------------------------------------------------------------------
  // get_event_position_ecef

  /** `get_event_position_ecef`: the stored stereo location of the cluster
      when there is one; otherwise the point at the default altitude on the
      line of sight of the first detection of the mask with the largest
      source intensity. `pierce` stands for `find_pierce_point_at_alt`. */
  function EventPositionEcef(loc: map<int, Vec3>, c: int, d: GlmStereo.Detections, m: seq<bool>,
                             pierce: (Vec3, Vec3, real) -> Vec3): (p: Vec3)
    requires d.Valid() && |m| == |d.sat| && (c in loc || CountTrue(m) > 0)
    ensures c in loc ==> p == loc[c]
    ensures c !in loc ==>
              exists k :: 0 <= k < |m| && m[k] &&
                (forall j :: 0 <= j < |m| && m[j] ==> d.intensity[j] <= d.intensity[k]) &&
                (forall j :: 0 <= j < k && m[j] ==> d.intensity[j] < d.intensity[k]) &&
                p == pierce(d.satPos[k], d.high[k], DefaultNonstereoAltitudeM)
  {
    if c in loc then loc[c]
    else
      ArgMaxOfSelect(d.intensity, m);
      SelectAtWhere(d.satPos, m);
      SelectAtWhere(d.high, m);
      var i := ArgMax(Select(d.intensity, m));
      pierce(Select(d.satPos, m)[i], Select(d.high, m)[i], DefaultNonstereoAltitudeM)
  }

  // ---------------------------------------------------------------------
  // mark_goes19_anomalies

  /** The detections of the cluster seen by GOES-19 that are energy peaks
      and fit. */
  function Goes19Selection(d: GlmStereo.Detections, m: seq<bool>): (sel: seq<bool>)
    requires d.Valid() && |m| == |d.sat|
    ensures |sel| == |m| && forall k :: 0 <= k < |m| ==>
      (sel[k] <==> m[k] && d.sat[k] == Goes19SatId && d.highest[k] == 1 && d.fitness[k] == 1)
  {
    seq(|m|, k requires 0 <= k < |m| => m[k] && d.sat[k] == Goes19SatId && d.highest[k] == 1 && d.fitness[k] == 1)
  }

  /** Whether a geodetic position lies strictly inside the window of some anomaly. */
  predicate NearAnomaly(lat: real, lon: real)
  {
    exists a :: 0 <= a < |Goes19AnomalyLatLons| &&
      Goes19AnomalyToleranceDeg > Abs(lat - Goes19AnomalyLatLons[a].0) &&
      Goes19AnomalyToleranceDeg > Abs(lon - Goes19AnomalyLatLons[a].1)
  }

  /** The filter as a cluster marking: a cluster with at least two selected
      GOES-19 detections whose position falls near an anomaly loses all of
      its detections. `geodetic` stands for `ecef2geodetic`. */
  function Goes19Marks(d: GlmStereo.Detections, loc: map<int, Vec3>, pierce: (Vec3, Vec3, real) -> Vec3,
                       geodetic: Vec3 -> (real, real, real)): (int, seq<bool>) -> seq<bool>
  {
    (c: int, m: seq<bool>) =>
      if d.Valid() && |m| == |d.sat| && CountTrue(Goes19Selection(d, m)) >= 2 then
        var (lat, lon, _) := geodetic(EventPositionEcef(loc, c, d, Goes19Selection(d, m), pierce));
        if NearAnomaly(lat, lon) then m else []
      else []
  }

  /** A detection becomes bad exactly when it was bad or its whole cluster
      qualifies: two or more selected GOES-19 detections and a position
      strictly within the tolerance of an anomaly. */
  lemma Goes19Props(ids: seq<int>, d: GlmStereo.Detections, loc: map<int, Vec3>, pierce: (Vec3, Vec3, real) -> Vec3,
                    geodetic: Vec3 -> (real, real, real), k: nat)
    requires d.Valid() && |ids| == |d.sat| && k < |ids|
    ensures var r := GlmMarking.Marked(ids, Goes19Marks(d, loc, pierce, geodetic));
      var m := EqualMask(ids, ids[k]);
      var sel := Goes19Selection(d, m);
      r[k] == GlmMarking.BadClusterId <==>
        ids[k] == GlmMarking.BadClusterId ||
        (CountTrue(sel) >= 2 &&
         var (lat, lon, _) := geodetic(EventPositionEcef(loc, ids[k], d, sel, pierce)); NearAnomaly(lat, lon))
  {
  }

  /** Two detections of one cluster are kept or removed together. */
  lemma Goes19WholeCluster(ids: seq<int>, d: GlmStereo.Detections, loc: map<int, Vec3>, pierce: (Vec3, Vec3, real) -> Vec3,
                           geodetic: Vec3 -> (real, real, real), j: nat, k: nat)
    requires d.Valid() && |ids| == |d.sat| && j < |ids| && k < |ids| && ids[j] == ids[k]
    ensures var r := GlmMarking.Marked(ids, Goes19Marks(d, loc, pierce, geodetic));
      r[j] == r[k]
  {
  }

  // ---------------------------------------------------------------------
  // get_total_radiated_energy

  /** The summed source intensity of satellite `s` inside the mask. */
  function SatIntensity(d: GlmStereo.Detections, m: seq<bool>, s: int): real
    requires d.Valid() && |m| == |d.sat|
  {
    VelocityHelpers.Sum(Select(d.intensity, And(m, EqualMask(d.sat, s))))
  }

  /** The radiated energy of each satellite of the mask, in increasing
      satellite order; `fourPi` stands for 4 pi steradians. */
  function SatEnergies(d: GlmStereo.Detections, m: seq<bool>, fourPi: real): (r: seq<real>)
    requires d.Valid() && |m| == |d.sat|
    ensures var us := Unique(Select(d.sat, m));
      |r| == |us| && forall i :: 0 <= i < |us| ==> r[i] == SatIntensity(d, m, us[i]) * fourPi / 503.0
  {
    var us := Unique(Select(d.sat, m));
    seq(|us|, i requires 0 <= i < |us| => SatIntensity(d, m, us[i]) * fourPi / 503.0)
  }

  /** `get_total_radiated_energy`: the largest per-satellite energy of the
      mask. numpy refuses the maximum of an empty array, so an empty mask
      has none. */
  function TotalRadiatedEnergy(d: GlmStereo.Detections, m: seq<bool>, fourPi: real): (r: Option<real>)
    requires d.Valid() && |m| == |d.sat|
    ensures r.None? <==> CountTrue(m) == 0
    ensures r.Some? ==> var es := SatEnergies(d, m, fourPi);
      (forall i :: 0 <= i < |es| ==> es[i] <= r.value) && exists i :: 0 <= i < |es| && es[i] == r.value
  {
    var es := SatEnergies(d, m, fourPi);
    NonEmptyHasSatellite(Select(d.sat, m));
    if |es| == 0 then None else Some(MathHelpers.SeqMax(es))
  }

  /** A non-empty selection has at least one distinct satellite id. */
  lemma NonEmptyHasSatellite(xs: seq<int>)
    ensures |Unique(xs)| == 0 <==> |xs| == 0
  {
    if |xs| > 0 {
      assert xs[0] in Unique(xs);
    }
  }
}
