/** `GlmDataSet`: the co-indexed per-detection arrays of one processing
    window, the event (pixel) arrays, and the per-cluster dictionaries, with
    the operations that rewrite them in place. The per-detection arrays the
    filters read are held together in one `Detections` record and the event
    arrays in one `Events` record; the cluster ids, the yaw-flip flags and
    the quality flags are fields of their own. Each operation delegates its
    computation to the module that models it and states the new state in
    terms of that module's specification; every field it does not name in
    its frame keeps its value. */
module GlmDataSetModel {
  import opened Wrappers
  import opened RealMath
  import opened ArrayOps
  import UtilHelpers
  import GlmConfig
  import GlmEvents
  import GlmClustering
  import GlmMarking
  import GlmStereo
  import GlmPeaks
  import GlmFitness
  import GlmPosition
  import GlmRank
  import GlmFilters
  import GlmVelocity

  /** The keep mask of `trim_glm_files` for the window [start, end]: when
      the window centre is in the latter half of its file, the detections
      before the end of the second file minus half the window; otherwise
      the detections after half the window. Times are relative to the base
      time. */
  function ValidTimes(time: seq<real>, start: real, end: real): (keep: seq<bool>)
    ensures |keep| == |time|
    ensures UtilHelpers.InGlmFileLatterHalf((start + end) / 2.0) ==>
      forall k :: 0 <= k < |time| ==> (keep[k] <==> time[k] < GlmConfig.ProcessIntervalS * 2.0 - (end - start) / 2.0)
    ensures !UtilHelpers.InGlmFileLatterHalf((start + end) / 2.0) ==>
      forall k :: 0 <= k < |time| ==> (keep[k] <==> time[k] > (end - start) / 2.0)
  {
    var half := (end - start) / 2.0;
    if UtilHelpers.InGlmFileLatterHalf((start + end) / 2.0) then
      seq(|time|, k requires 0 <= k < |time| => time[k] < GlmConfig.ProcessIntervalS * 2.0 - half)
    else
      seq(|time|, k requires 0 <= k < |time| => time[k] > half)
  }

  /** Trimming keeps either the first file's end or the second file's
      start: a detection at the window's half-width into the interval pair
      is kept in the latter-half case exactly when it is before the far
      edge, and in the other case is dropped. */
  lemma ValidTimesHalf(time: seq<real>, start: real, end: real, k: nat)
    requires k < |time| && time[k] == (end - start) / 2.0
    ensures var keep := ValidTimes(time, start, end);
      keep[k] <==> UtilHelpers.InGlmFileLatterHalf((start + end) / 2.0) && end - start < GlmConfig.ProcessIntervalS * 2.0
  {
  }

  /** The detection arrays cut by one keep mask. */
  function TrimDetections(d: GlmStereo.Detections, keep: seq<bool>): (r: GlmStereo.Detections)
    requires d.Valid() && |keep| == |d.sat|
    ensures r.Valid() && |r.sat| == CountTrue(keep)
  {
    GlmStereo.Detections(Select(d.sat, keep), Select(d.time, keep), Select(d.energy, keep), Select(d.intensity, keep),
                         Select(d.satPos, keep), Select(d.high, keep), Select(d.low, keep),
                         Select(d.group, keep), Select(d.highest, keep), Select(d.fitness, keep),
                         Select(d.lat, keep), Select(d.lon, keep))
  }

  /** Trimming keeps the arrays aligned: the j-th detection left is,
      in every array, the detection at the j-th kept position. */
  lemma TrimAligned(d: GlmStereo.Detections, keep: seq<bool>, j: nat)
    requires d.Valid() && |keep| == |d.sat| && j < CountTrue(keep)
    ensures var r, k := TrimDetections(d, keep), Where(keep)[j];
      k < |keep| && keep[k] &&
      r.sat[j] == d.sat[k] && r.time[j] == d.time[k] && r.energy[j] == d.energy[k] &&
      r.intensity[j] == d.intensity[k] && r.satPos[j] == d.satPos[k] && r.high[j] == d.high[k] &&
      r.low[j] == d.low[k] && r.group[j] == d.group[k] && r.highest[j] == d.highest[k] &&
      r.fitness[j] == d.fitness[k] && r.lat[j] == d.lat[k] && r.lon[j] == d.lon[k]
  {
    SelectAtWhere(d.sat, keep);
    SelectAtWhere(d.time, keep);
    SelectAtWhere(d.energy, keep);
    SelectAtWhere(d.intensity, keep);
    SelectAtWhere(d.satPos, keep);
    SelectAtWhere(d.high, keep);
    SelectAtWhere(d.low, keep);
    SelectAtWhere(d.group, keep);
    SelectAtWhere(d.highest, keep);
    SelectAtWhere(d.fitness, keep);
    SelectAtWhere(d.lat, keep);
    SelectAtWhere(d.lon, keep);
  }

  /** The loop of `mark_low_altitude_stereo_events` over the cluster ids:
      the marking, and the stored location of every cluster with an estimate. */
  method LowAltitudePass(ids: seq<int>, loc: map<int, Vec3>, d: GlmStereo.Detections, nonParallel: (Vec3, Vec3) -> bool,
                         altitude: Vec3 -> real, maxNum: nat, threshold: real) returns (r: seq<int>, rloc: map<int, Vec3>)
    ensures r == GlmMarking.Marked(ids, GlmStereo.LowAltitudeMarks(d, nonParallel, altitude, maxNum, threshold))
    ensures var est := GlmStereo.EstimatedPoint(ids, d, nonParallel, maxNum);
      forall c :: c in rloc <==> c in loc || GlmStereo.Stored(Unique(ids), est, c)
    ensures var est := GlmStereo.EstimatedPoint(ids, d, nonParallel, maxNum);
      forall c :: c in rloc ==> rloc[c] == if GlmStereo.Stored(Unique(ids), est, c) then est(c).value else loc[c]
  {
    r := GlmMarking.MarkClusters(ids, GlmStereo.LowAltitudeMarks(d, nonParallel, altitude, maxNum, threshold));
    rloc := GlmStereo.StoreEstimates(loc, Unique(ids), GlmStereo.EstimatedPoint(ids, d, nonParallel, maxNum));
  }

  class GlmDataSet {
    /** The event (pixel) level arrays. */
    var events: GlmEvents.Events
    /** The group level arrays the filters read, co-indexed. */
    var dets: GlmStereo.Detections
    /** The cluster of each detection. */
    var clusterId: seq<int>
    /** The yaw-flip flag and the quality flag of each detection. */
    var yawFlip: seq<int>
    var quality: seq<int>

    var numClusters: nat
    var basetime: real
    var filesStart: real
    var filesEnd: real

    /** Per-cluster results: (cluster id, rank) rows, the stereo locations,
        the velocities, and the bolide probability per (cluster, satellite). */
    var ranks: seq<(int, nat)>
    var location: map<int, Vec3>
    var velocities: map<int, Vec3>
    var rocketProb: map<(int, int), real>

    /** All arrays of a kind have one entry per detection or per event. */
    predicate Valid()
      reads this
    {
      events.Valid() && dets.Valid() &&
      |clusterId| == |dets.sat| && |yawFlip| == |dets.sat| && |quality| == |dets.sat|
    }

    /** An empty data set. */
    constructor()
      ensures Valid() && |dets.sat| == 0 && |events.time| == 0 && numClusters == 0
      ensures ranks == [] && location == map[] && velocities == map[] && rocketProb == map[]
    {
      events := GlmEvents.Events([], [], [], [], [], []);
      dets := GlmStereo.Detections([], [], [], [], [], [], [], [], [], [], [], []);
      clusterId, yawFlip, quality := [], [], [];
      numClusters, basetime, filesStart, filesEnd := 0, 0.0, 0.0, 0.0;
      ranks, location, velocities, rocketProb := [], map[], map[], map[];
    }

    /** `count_clusters`: the number of distinct good cluster ids, recorded
        when asked. */
    method CountClusters(updateSelf: bool) returns (n: nat)
      modifies this`numClusters
      ensures n == |GlmMarking.GoodIds(clusterId)|
      ensures numClusters == if updateSelf then n else old(numClusters)
    {
      n := GlmMarking.CountClusters(clusterId);
      if updateSelf {
        numClusters := n;
      }
    }

    /** `trim_glm_files`: every group array is cut with the one mask of
        `ValidTimes`, unless that mask keeps nothing; the event arrays and
        the per-cluster results are untouched. */
    method TrimGlmFiles(start: real, end: real)
      requires Valid()
      modifies this`dets, this`clusterId, this`yawFlip, this`quality
      ensures Valid()
      ensures var keep := ValidTimes(old(dets.time), start, end);
        if CountTrue(keep) == 0 then
          dets == old(dets) && clusterId == old(clusterId) && yawFlip == old(yawFlip) && quality == old(quality)
        else
          dets == TrimDetections(old(dets), keep) && clusterId == Select(old(clusterId), keep) &&
          yawFlip == Select(old(yawFlip), keep) && quality == Select(old(quality), keep)
    {
      var keep := ValidTimes(dets.time, start, end);
      if CountTrue(keep) == 0 {
        return;
      }
      dets := TrimDetections(dets, keep);
      clusterId, yawFlip, quality := Select(clusterId, keep), Select(yawFlip, keep), Select(quality, keep);
    }

    /** `prune_event_data_by_group_id`, with its result assigned back to the
        event arrays as the pipeline does. */
    method PruneEventDataByGroupId(good: seq<int>)
      requires Valid()
      modifies this`events
      ensures Valid()
      ensures events == GlmEvents.PruneEventData(old(events), dets.group, clusterId, good)
    {
      events := GlmEvents.PruneEventData(events, dets.group, clusterId, good);
    }

    /** `cluster_glm_data` over the cloud-top positions; `q` carries the
        limits and the line-of-sight distance test. */
    method ClusterGlmData(q: GlmClustering.Limits)
      requires Valid()
      modifies this`clusterId
      ensures Valid()
      ensures clusterId == GlmClustering.ClusterLabels(old(clusterId), GlmClustering.Points(dets.time, dets.lat, dets.lon), q,
                                                       GlmClustering.LastInTime)
    {
      clusterId := GlmClustering.ClusterGlmData(clusterId, GlmClustering.Points(dets.time, dets.lat, dets.lon), q);
    }

    /** `mark_redundant_clusters` for the event at `eventTime`. */
    method MarkRedundantClusters(eventTime: real)
      requires Valid()
      modifies this`clusterId
      ensures Valid()
      ensures var latter := UtilHelpers.InGlmFileLatterHalf(eventTime);
        clusterId == GlmMarking.Marked(GlmMarking.MarkOuter(old(clusterId), GlmMarking.OuterMask(dets.time, basetime, latter, filesStart, filesEnd)),
                                       GlmMarking.RedundantMarks(dets.time, basetime, latter, (filesEnd + filesStart) / 2.0))
    {
      clusterId := GlmMarking.MarkRedundantClusters(clusterId, dets.time, basetime, eventTime, filesStart, filesEnd);
    }

    /** `mark_long_durations`. */
    method MarkLongDurations()
      requires Valid()
      modifies this`clusterId
      ensures Valid()
      ensures clusterId == GlmMarking.Marked(old(clusterId), GlmMarking.LongMarks(dets.time))
    {
      clusterId := GlmMarking.MarkLongDurations(clusterId, dets.time);
    }

    /** `mark_low_altitude_stereo_events`: marks the compared detections of
        each cluster whose stereo estimate is below the threshold, and
        stores every cluster's estimated location. `altitude` stands for
        the altitude of `ecef2geodetic`. */
    method MarkLowAltitudeStereoEvents(nonParallel: (Vec3, Vec3) -> bool, altitude: Vec3 -> real,
                                       maxNum: nat, threshold: real)
      requires Valid()
      modifies this`clusterId, this`location
      ensures Valid()
      ensures clusterId == GlmMarking.Marked(old(clusterId), GlmStereo.LowAltitudeMarks(dets, nonParallel, altitude, maxNum, threshold))
      ensures var est := GlmStereo.EstimatedPoint(old(clusterId), dets, nonParallel, maxNum);
        forall c :: c in location <==> c in old(location) || GlmStereo.Stored(Unique(old(clusterId)), est, c)
      ensures var est := GlmStereo.EstimatedPoint(old(clusterId), dets, nonParallel, maxNum);
        forall c :: c in location ==>
          location[c] == if GlmStereo.Stored(Unique(old(clusterId)), est, c) then est(c).value else old(location)[c]
    {
      clusterId, location := LowAltitudePass(clusterId, location, dets, nonParallel, altitude, maxNum, threshold);
    }

    /** `mark_higher_energies`. */
    method MarkHigherEnergies()
      requires Valid()
      modifies this`dets
      ensures Valid()
      ensures dets == old(dets).(highest := GlmPeaks.Highest(clusterId, old(dets.sat), old(dets.time), old(dets.energy), old(dets.highest)))
    {
      var h := GlmPeaks.MarkHigherEnergies(clusterId, dets.sat, dets.time, dets.energy, dets.highest);
      dets := dets.(highest := h);
    }

    /** `mark_bad_points`. */
    method MarkBadPoints()
      requires Valid()
      modifies this`dets
      ensures Valid()
      ensures dets == old(dets).(fitness := dets.fitness)
      ensures GlmFitness.BadPointsMarked(clusterId, dets.sat, dets.highest, dets.time, old(dets.fitness), dets.fitness)
      ensures GlmFitness.EnergyRuleMarked(clusterId, dets.sat, dets.highest, dets.time, dets.energy, dets.fitness)
    {
      var f := GlmFitness.MarkBadPoints(clusterId, dets.sat, dets.highest, dets.time, dets.energy, dets.fitness);
      dets := dets.(fitness := f);
    }

    /** `mark_goes19_anomalies`; `pierce` and `geodetic` stand for
        `find_pierce_point_at_alt` and `ecef2geodetic`. */
    method MarkGoes19Anomalies(pierce: (Vec3, Vec3, real) -> Vec3, geodetic: Vec3 -> (real, real, real))
      requires Valid()
      modifies this`clusterId
      ensures Valid()
      ensures clusterId == GlmMarking.Marked(old(clusterId), GlmPosition.Goes19Marks(dets, location, pierce, geodetic))
    {
      clusterId := GlmMarking.MarkClusters(clusterId, GlmPosition.Goes19Marks(dets, location, pierce, geodetic));
    }

    /** `rank_glm_clusters`: one row per distinct cluster id. */
    method RankGlmClusters(minEnergy: real)
      requires Valid()
      modifies this`ranks
      ensures Valid()
      ensures GlmRank.RanksFor(clusterId, dets.sat, dets.highest, dets.fitness, dets.time, dets.energy, minEnergy, Unique(clusterId), ranks)
    {
      ranks := GlmRank.RankGlmClusters(clusterId, dets.sat, dets.highest, dets.fitness, dets.time, dets.energy, minEnergy);
    }

    /** `omit_large_group_size_clusters`: the listed clusters that pass. */
    method OmitLargeGroupSizeClusters(cs: seq<int>) returns (r: seq<int>)
      requires Valid()
      ensures var d, parents, ids := dets, events.parentGroupId, clusterId;
        r == GlmFilters.KeptClusters(cs, c => GlmFilters.LargeGroupRejects(d, parents, ids, c))
    {
      r := GlmFilters.OmitLargeGroupSizeClusters(dets, events.parentGroupId, clusterId, cs);
    }

    /** `rocket_filter`: the listed clusters that pass, and the recorded
        probability of every classified (cluster, satellite) pair. */
    method RocketFilter(cs: seq<int>, classify: (seq<real>, seq<real>, seq<real>) -> real) returns (r: seq<int>)
      requires Valid()
      modifies this`rocketProb
      ensures Valid()
      ensures var d, ids := dets, clusterId;
        r == GlmFilters.KeptClusters(cs, c => GlmFilters.RocketRejects(d, ids, classify, c))
      ensures forall key :: key in rocketProb <==> key in old(rocketProb) || GlmFilters.Scored(dets, clusterId, cs, classify, key)
      ensures forall key :: key in rocketProb ==>
        rocketProb[key] == if GlmFilters.Scored(dets, clusterId, cs, classify, key)
                           then GlmFilters.SatBolideProb(dets, EqualMask(clusterId, key.0), key.1, classify).value
                           else old(rocketProb)[key]
    {
      r := GlmFilters.RocketFilter(dets, clusterId, cs, classify);
      rocketProb := GlmFilters.StoreRocketProbs(rocketProb, dets, clusterId, cs, classify);
    }

    /** `estimate_velocities` for the listed clusters. */
    method EstimateVelocities(cs: seq<int>, nonParallel: (Vec3, Vec3) -> bool)
      requires Valid()
      modifies this`velocities
      ensures Valid()
      ensures var est := GlmVelocity.VelocityFor(clusterId, dets, events.parentGroupId, nonParallel);
        forall c :: c in velocities <==> c in old(velocities) || GlmStereo.Stored(cs, est, c)
      ensures var est := GlmVelocity.VelocityFor(clusterId, dets, events.parentGroupId, nonParallel);
        forall c :: c in velocities ==>
          velocities[c] == if GlmStereo.Stored(cs, est, c) then est(c).value else old(velocities)[c]
    {
      velocities := GlmStereo.StoreEstimates(velocities, cs, GlmVelocity.VelocityFor(clusterId, dets, events.parentGroupId, nonParallel));
    }
  }
}
