/** `process_glm_files`: one pass of the trigger generator over a loaded data
    set. The clusters are built and filtered in a fixed order, ranked, split
    by rank into strong and weak clusters, screened by the group-size filter
    (weak clusters only) and by the classifier, and capped in number. */
module GlmDataSetHelpers {
  import opened RealMath
  import opened ArrayOps
  import UtilHelpers
  import GlmConfig
  import GlmEvents
  import GlmClustering
  import GlmMarking
  import GlmStereo
  import GlmPeaks
  import GlmFitness
  import GlmPosition
  import GlmRank
  import GlmFilters
  import GlmVelocity
  import GlmDataSetModel

  /** The rank rows whose rank is at least `t`. */
  function RowsAtLeast(rows: seq<(int, nat)>, t: int): (r: seq<(int, nat)>)
    ensures forall row :: row in r <==> row in rows && row.1 >= t
  {
    var m := seq(|rows|, i requires 0 <= i < |rows| => rows[i].1 >= t);
    SelectMembers(rows, m);
    Select(rows, m)
  }

  /** The rank rows whose rank is below `t`. */
  function RowsBelow(rows: seq<(int, nat)>, t: int): (r: seq<(int, nat)>)
    ensures forall row :: row in r <==> row in rows && row.1 < t
  {
    var m := seq(|rows|, i requires 0 <= i < |rows| => rows[i].1 < t);
    SelectMembers(rows, m);
    Select(rows, m)
  }

  /** The cluster id column. */
  function RowIds(rows: seq<(int, nat)>): (r: seq<int>)
    ensures |r| == |rows| && forall i :: 0 <= i < |rows| ==> r[i] == rows[i].0
  {
    seq(|rows|, i requires 0 <= i < |rows| => rows[i].0)
  }

  /** The strong and the weak rows split the good rows: each good row is
      in exactly one of them, and nothing else is in either. */
  lemma StrongWeakPartition(ranks: seq<(int, nat)>, row: (int, nat))
    ensures var good := RowsAtLeast(ranks, GlmConfig.ValidRank);
      var strong := RowsAtLeast(good, GlmConfig.StrongSignalRankThreshold);
      var weak := RowsBelow(good, GlmConfig.StrongSignalRankThreshold);
      (row in good <==> row in strong || row in weak) && !(row in strong && row in weak)
  {
  }

  /** An id of the id column comes from some row. */
  lemma RowIdsMember(rows: seq<(int, nat)>, c: int)
    requires c in RowIds(rows)
    ensures exists row :: row in rows && row.0 == c
  {
    var i :| 0 <= i < |rows| && RowIds(rows)[i] == c;
    assert rows[i] in rows;
  }

  /** The trigger cap: a list of `MaxNumTriggers` or more clusters is
      dropped altogether. */
  function CapTriggers(cs: seq<int>): (r: seq<int>)
    ensures |r| < GlmConfig.MaxNumTriggers
    ensures r == cs || r == []
    ensures |cs| < GlmConfig.MaxNumTriggers ==> r == cs
  {
    if |cs| >= GlmConfig.MaxNumTriggers then [] else cs
  }

  /** A cluster listed for the classifier, whether strong or a weak one that
      passed the group-size filter, has a rank row at or above the valid
      rank. */
  lemma CandidateRanked(ranks: seq<(int, nat)>, weakKept: seq<int>, c: int)
    requires forall x :: x in weakKept ==>
      x in RowIds(RowsBelow(RowsAtLeast(ranks, GlmConfig.ValidRank), GlmConfig.StrongSignalRankThreshold))
    requires c in RowIds(RowsAtLeast(RowsAtLeast(ranks, GlmConfig.ValidRank), GlmConfig.StrongSignalRankThreshold)) + weakKept
    ensures exists row :: row in ranks && row.0 == c && row.1 >= GlmConfig.ValidRank
  {
    var good := RowsAtLeast(ranks, GlmConfig.ValidRank);
    if c in weakKept {
      RowIdsMember(RowsBelow(good, GlmConfig.StrongSignalRankThreshold), c);
    } else {
      RowIdsMember(RowsAtLeast(good, GlmConfig.StrongSignalRankThreshold), c);
    }
  }

  /** The clusters the classifier keeps out of the strong ids and the weak
      ids the group-size filter kept, capped, are good and ranked at or
      above the valid rank. */
  lemma {:induction false} TriggersRanked(ranks: seq<(int, nat)>, weakKept: seq<int>, passed: seq<int>,
                                          rejects: int -> bool, c: int)
    requires forall x :: x in weakKept ==>
      x in RowIds(RowsBelow(RowsAtLeast(ranks, GlmConfig.ValidRank), GlmConfig.StrongSignalRankThreshold))
    requires passed == GlmFilters.KeptClusters(RowIds(RowsAtLeast(RowsAtLeast(ranks, GlmConfig.ValidRank), GlmConfig.StrongSignalRankThreshold)) + weakKept, rejects)
    requires c in CapTriggers(passed)
    ensures c != GlmMarking.BadClusterId && exists row :: row in ranks && row.0 == c && row.1 >= GlmConfig.ValidRank
  {
    var cs := RowIds(RowsAtLeast(RowsAtLeast(ranks, GlmConfig.ValidRank), GlmConfig.StrongSignalRankThreshold)) + weakKept;
    GlmFilters.KeptClustersMembers(cs, rejects, c);
    CandidateRanked(ranks, weakKept, c);
  }

  /** The weak ids the group-size filter keeps are weak ids. */
  lemma {:induction false} WeakKeptAreWeak(weak: seq<int>, rejects: int -> bool, kept: seq<int>)
    requires kept == GlmFilters.KeptClusters(weak, rejects)
    ensures forall x :: x in kept ==> x in weak
  {
    forall x | x in kept ensures x in weak {
      GlmFilters.KeptClustersMembers(weak, rejects, x);
    }
  }

  /** An id is in the id column exactly when some row carries it. */
  lemma RowIdsIff(rows: seq<(int, nat)>, c: int)
    ensures c in RowIds(rows) <==> exists row :: row in rows && row.0 == c
  {
    if exists row :: row in rows && row.0 == c {
      var row :| row in rows && row.0 == c;
      var i :| 0 <= i < |rows| && rows[i] == row;
      assert RowIds(rows)[i] == c;
    }
  }

  /** The strong ids: the good rows at or above the strong-signal rank. */
  function StrongIds(ranks: seq<(int, nat)>): seq<int>
  {
    RowIds(RowsAtLeast(RowsAtLeast(ranks, GlmConfig.ValidRank), GlmConfig.StrongSignalRankThreshold))
  }

  /** The weak ids: the good rows below the strong-signal rank. */
  function WeakIds(ranks: seq<(int, nat)>): seq<int>
  {
    RowIds(RowsBelow(RowsAtLeast(ranks, GlmConfig.ValidRank), GlmConfig.StrongSignalRankThreshold))
  }

  /** The weak ids the group-size filter keeps; the filter runs only when
      there is a weak id. */
  function WeakKept(ranks: seq<(int, nat)>, d: GlmStereo.Detections, parents: seq<int>, ids: seq<int>): seq<int>
  {
    var weak := WeakIds(ranks);
    if |weak| > 0 then GlmFilters.KeptClusters(weak, c => GlmFilters.LargeGroupRejects(d, parents, ids, c)) else weak
  }

  /** The ids handed to the classifier: the strong ids, then the kept weak ids. */
  function Candidates(ranks: seq<(int, nat)>, d: GlmStereo.Detections, parents: seq<int>, ids: seq<int>): seq<int>
  {
    StrongIds(ranks) + WeakKept(ranks, d, parents, ids)
  }

  /** The candidates the classifier keeps. */
  function Passed(ranks: seq<(int, nat)>, d: GlmStereo.Detections, parents: seq<int>, ids: seq<int>,
                  classify: (seq<real>, seq<real>, seq<real>) -> real): seq<int>
  {
    GlmFilters.KeptClusters(Candidates(ranks, d, parents, ids), c => GlmFilters.RocketRejects(d, ids, classify, c))
  }

  /** The triggering clusters of `process_glm_files`: the classifier's
      survivors among the candidates, capped. */
  function Selected(ranks: seq<(int, nat)>, d: GlmStereo.Detections, parents: seq<int>, ids: seq<int>,
                    classify: (seq<real>, seq<real>, seq<real>) -> real): seq<int>
  {
    CapTriggers(Passed(ranks, d, parents, ids, classify))
  }

  /** An id is strong exactly when some rank row carries it with a rank at
      or above the strong-signal rank. */
  lemma StrongIdsIff(ranks: seq<(int, nat)>, c: int)
    ensures c in StrongIds(ranks) <==>
      exists row :: row in ranks && row.0 == c && row.1 >= GlmConfig.StrongSignalRankThreshold
  {
    var strong := RowsAtLeast(RowsAtLeast(ranks, GlmConfig.ValidRank), GlmConfig.StrongSignalRankThreshold);
    RowIdsIff(strong, c);
    assert (exists row :: row in strong && row.0 == c) <==>
           (exists row :: row in ranks && row.0 == c && row.1 >= GlmConfig.StrongSignalRankThreshold);
  }

  /** An id is weak exactly when some rank row carries it with a rank from
      the valid rank up to, not including, the strong-signal rank. */
  lemma WeakIdsIff(ranks: seq<(int, nat)>, c: int)
    ensures c in WeakIds(ranks) <==>
      exists row :: row in ranks && row.0 == c && GlmConfig.ValidRank <= row.1 < GlmConfig.StrongSignalRankThreshold
  {
    var weak := RowsBelow(RowsAtLeast(ranks, GlmConfig.ValidRank), GlmConfig.StrongSignalRankThreshold);
    RowIdsIff(weak, c);
    assert (exists row :: row in weak && row.0 == c) <==>
           (exists row :: row in ranks && row.0 == c && GlmConfig.ValidRank <= row.1 < GlmConfig.StrongSignalRankThreshold);
  }

  /** A candidate is a strong id, or a good weak id the group-size filter
      keeps. */
  lemma CandidatesMembers(ranks: seq<(int, nat)>, d: GlmStereo.Detections, parents: seq<int>, ids: seq<int>, c: int)
    ensures c in Candidates(ranks, d, parents, ids) <==>
      c in StrongIds(ranks) ||
      (c in WeakIds(ranks) && c != GlmMarking.BadClusterId && !GlmFilters.LargeGroupRejects(d, parents, ids, c))
  {
    if |WeakIds(ranks)| > 0 {
      GlmFilters.KeptClustersMembers(WeakIds(ranks), c => GlmFilters.LargeGroupRejects(d, parents, ids, c), c);
    }
  }

  /** A cluster triggers exactly when the classifier's survivors are fewer
      than the cap, it is good, the classifier keeps it, and it has a strong
      rank row, or a weak one and the group-size filter keeps it. */
  lemma {:induction false} SelectedMembers(ranks: seq<(int, nat)>, d: GlmStereo.Detections, parents: seq<int>, ids: seq<int>,
                                           classify: (seq<real>, seq<real>, seq<real>) -> real, c: int)
    ensures c in Selected(ranks, d, parents, ids, classify) <==>
      |Passed(ranks, d, parents, ids, classify)| < GlmConfig.MaxNumTriggers &&
      c != GlmMarking.BadClusterId && !GlmFilters.RocketRejects(d, ids, classify, c) &&
      ((exists row :: row in ranks && row.0 == c && row.1 >= GlmConfig.StrongSignalRankThreshold) ||
       ((exists row :: row in ranks && row.0 == c && GlmConfig.ValidRank <= row.1 < GlmConfig.StrongSignalRankThreshold) &&
        !GlmFilters.LargeGroupRejects(d, parents, ids, c)))
  {
    GlmFilters.KeptClustersMembers(Candidates(ranks, d, parents, ids), c => GlmFilters.RocketRejects(d, ids, classify, c), c);
    CandidatesMembers(ranks, d, parents, ids, c);
    StrongIdsIff(ranks, c);
    WeakIdsIff(ranks, c);
  }

  /** The cluster ids after the redundant and long-duration marks of
      `process_glm_files`, from the ids clustering left. */
  function MarkedBeforeAltitude(clustered: seq<int>, d: GlmStereo.Detections, basetime: real, filesStart: real, filesEnd: real,
                                timeToProcess: real): (r: seq<int>)
    requires d.Valid() && |clustered| == |d.sat|
    ensures |r| == |clustered|
  {
    var latter := UtilHelpers.InGlmFileLatterHalf(timeToProcess);
    var redundant := GlmMarking.Marked(GlmMarking.MarkOuter(clustered, GlmMarking.OuterMask(d.time, basetime, latter, filesStart, filesEnd)),
                                       GlmMarking.RedundantMarks(d.time, basetime, latter, (filesEnd + filesStart) / 2.0));
    GlmMarking.Marked(redundant, GlmMarking.LongMarks(d.time))
  }

  /** The redundant and long-duration steps compose to `MarkedBeforeAltitude`. */
  lemma ComposeBeforeAltitude(clustered: seq<int>, d: GlmStereo.Detections, basetime: real, filesStart: real, filesEnd: real,
                               timeToProcess: real, redundant: seq<int>, before: seq<int>, d3: GlmStereo.Detections)
    requires d.Valid() && |clustered| == |d.sat| && d3 == d
    requires redundant == GlmMarking.Marked(GlmMarking.MarkOuter(clustered, GlmMarking.OuterMask(d.time, basetime, UtilHelpers.InGlmFileLatterHalf(timeToProcess), filesStart, filesEnd)),
                                            GlmMarking.RedundantMarks(d.time, basetime, UtilHelpers.InGlmFileLatterHalf(timeToProcess), (filesEnd + filesStart) / 2.0))
    requires before == GlmMarking.Marked(redundant, GlmMarking.LongMarks(d3.time))
    ensures before == MarkedBeforeAltitude(clustered, d, basetime, filesStart, filesEnd, timeToProcess)
  {
  }

  /** The cluster ids after all the marks that follow clustering. */
  function MarkedAfterClustering(clustered: seq<int>, d: GlmStereo.Detections, basetime: real, filesStart: real, filesEnd: real,
                                 timeToProcess: real, nonParallel: (Vec3, Vec3) -> bool, altitude: Vec3 -> real): (r: seq<int>)
    requires d.Valid() && |clustered| == |d.sat|
    ensures |r| == |clustered|
  {
    GlmMarking.Marked(MarkedBeforeAltitude(clustered, d, basetime, filesStart, filesEnd, timeToProcess),
                      GlmStereo.LowAltitudeMarks(d, nonParallel, altitude, GlmStereo.MaxNumComparisons, GlmStereo.AltitudeThresholdM))
  }

  /** The altitude mark after `MarkedBeforeAltitude` gives `MarkedAfterClustering`. */
  lemma ComposeAfterClustering(clustered: seq<int>, d: GlmStereo.Detections, basetime: real, filesStart: real, filesEnd: real,
                                timeToProcess: real, nonParallel: (Vec3, Vec3) -> bool, altitude: Vec3 -> real,
                                before: seq<int>, marked: seq<int>, d5: GlmStereo.Detections)
    requires d.Valid() && |clustered| == |d.sat| && d5 == d
    requires before == MarkedBeforeAltitude(clustered, d, basetime, filesStart, filesEnd, timeToProcess)
    requires marked == GlmMarking.Marked(before, GlmStereo.LowAltitudeMarks(d5, nonParallel, altitude, GlmStereo.MaxNumComparisons, GlmStereo.AltitudeThresholdM))
    ensures marked == MarkedAfterClustering(clustered, d, basetime, filesStart, filesEnd, timeToProcess, nonParallel, altitude)
  {
  }

  /** The cluster ids clustering leaves. */
  function Clustered(ids: seq<int>, d: GlmStereo.Detections, q: GlmClustering.Limits): (r: seq<int>)
    requires d.Valid() && |ids| == |d.sat|
    ensures |r| == |ids|
  {
    GlmClustering.ClusterLabels(ids, GlmClustering.Points(d.time, d.lat, d.lon), q, GlmClustering.LastInTime)
  }

  /** The redundant and long-duration marks of `process_glm_files`, each
      followed by a count of the clusters that remain. */
  method MarkRedundantAndLong(ds: GlmDataSetModel.GlmDataSet, timeToProcess: real)
    requires ds.Valid()
    modifies ds`clusterId, ds`numClusters
    ensures ds.Valid()
    ensures ds.clusterId == MarkedBeforeAltitude(old(ds.clusterId), old(ds.dets), old(ds.basetime), old(ds.filesStart),
                                                 old(ds.filesEnd), timeToProcess)
    ensures ds.numClusters == |GlmMarking.GoodIds(ds.clusterId)|
  {
    ghost var ids := ds.clusterId;
    ds.MarkRedundantClusters(timeToProcess);
    ghost var redundant, d, bt, fs, fe := ds.clusterId, ds.dets, ds.basetime, ds.filesStart, ds.filesEnd;
    var n := ds.CountClusters(true);
    ds.MarkLongDurations();
    ghost var d3 := ds.dets;
    ComposeBeforeAltitude(ids, d, bt, fs, fe, timeToProcess, redundant, ds.clusterId, d3);
    n := ds.CountClusters(true);
  }

  /** The cluster marks of `process_glm_files` that follow clustering,
      each followed by a count of the clusters that remain. */
  method MarkClustered(ds: GlmDataSetModel.GlmDataSet, timeToProcess: real, nonParallel: (Vec3, Vec3) -> bool,
                       altitude: Vec3 -> real)
    requires ds.Valid()
    modifies ds`clusterId, ds`location, ds`numClusters
    ensures ds.Valid()
    ensures ds.clusterId == MarkedAfterClustering(old(ds.clusterId), old(ds.dets), old(ds.basetime), old(ds.filesStart),
                                                  old(ds.filesEnd), timeToProcess, nonParallel, altitude)
    ensures ds.numClusters == |GlmMarking.GoodIds(ds.clusterId)|
  {
    MarkRedundantAndLong(ds, timeToProcess);
    ghost var before, d := ds.clusterId, ds.dets;
    ds.MarkLowAltitudeStereoEvents(nonParallel, altitude, GlmStereo.MaxNumComparisons, GlmStereo.AltitudeThresholdM);
    ghost var d5 := ds.dets;
    var n := ds.CountClusters(true);
    ComposeAfterClustering(old(ds.clusterId), old(ds.dets), old(ds.basetime), old(ds.filesStart), old(ds.filesEnd),
                           timeToProcess, nonParallel, altitude, before, ds.clusterId, d5);
  }

  /** The cluster-level steps of `process_glm_files`, in their order:
      clustering, then the redundant, long-duration and low-altitude marks,
      each followed by a count of the clusters that remain. */
  method MarkClusters(ds: GlmDataSetModel.GlmDataSet, timeToProcess: real, q: GlmClustering.Limits,
                      nonParallel: (Vec3, Vec3) -> bool, altitude: Vec3 -> real)
    requires ds.Valid()
    modifies ds`clusterId, ds`location, ds`numClusters
    ensures ds.Valid()
    ensures ds.clusterId == MarkedAfterClustering(Clustered(old(ds.clusterId), old(ds.dets), q), old(ds.dets), old(ds.basetime),
                                                  old(ds.filesStart), old(ds.filesEnd), timeToProcess, nonParallel, altitude)
    ensures ds.numClusters == |GlmMarking.GoodIds(ds.clusterId)|
  {
    ghost var ids, d := ds.clusterId, ds.dets;
    ds.ClusterGlmData(q);
    ghost var clustered := ds.clusterId;
    assert clustered == Clustered(ids, d, q);
    var n := ds.CountClusters(true);
    MarkClustered(ds, timeToProcess, nonParallel, altitude);
  }

  /** The point-level steps of `process_glm_files` that follow: the peak
      and fitness flags, the GOES-19 marks and the ranks. The fitness flags
      are set from the cluster ids before the GOES-19 mark, and the ranks
      from those after it. */
  method MarkPointsAndRank(ds: GlmDataSetModel.GlmDataSet, pierce: (Vec3, Vec3, real) -> Vec3,
                           geodetic: Vec3 -> (real, real, real))
    requires ds.Valid()
    modifies ds`dets, ds`clusterId, ds`ranks
    ensures ds.Valid()
    ensures ds.dets == old(ds.dets).(highest := GlmPeaks.Highest(old(ds.clusterId), old(ds.dets.sat), old(ds.dets.time),
                                                                 old(ds.dets.energy), old(ds.dets.highest)),
                                     fitness := ds.dets.fitness)
    ensures GlmFitness.BadPointsMarked(old(ds.clusterId), ds.dets.sat, ds.dets.highest, ds.dets.time, old(ds.dets.fitness), ds.dets.fitness)
    ensures GlmFitness.EnergyRuleMarked(old(ds.clusterId), ds.dets.sat, ds.dets.highest, ds.dets.time, ds.dets.energy, ds.dets.fitness)
    ensures ds.clusterId == GlmMarking.Marked(old(ds.clusterId), GlmPosition.Goes19Marks(ds.dets, ds.location, pierce, geodetic))
    ensures GlmRank.RanksFor(ds.clusterId, ds.dets.sat, ds.dets.highest, ds.dets.fitness, ds.dets.time, ds.dets.energy,
                             GlmConfig.MinEnergyLvlJ, Unique(ds.clusterId), ds.ranks)
  {
    ds.MarkHigherEnergies();
    ds.MarkBadPoints();
    ds.MarkGoes19Anomalies(pierce, geodetic);
    ds.RankGlmClusters(GlmConfig.MinEnergyLvlJ);
  }

  /** The selection steps of `process_glm_files` after ranking: the good
      ranks split into strong and weak, the group-size filter on the weak
      ones, the classifier on both, and the cap. The result is `Selected`
      of the data set; each cluster returned is good and has a rank row at
      or above the valid rank, and the classifier's probabilities are
      recorded for the candidates. */
  method SelectTriggers(ds: GlmDataSetModel.GlmDataSet, classify: (seq<real>, seq<real>, seq<real>) -> real)
    returns (good: seq<int>)
    requires ds.Valid()
    modifies ds`rocketProb
    ensures ds.Valid()
    ensures good == Selected(ds.ranks, ds.dets, ds.events.parentGroupId, ds.clusterId, classify)
    ensures |good| < GlmConfig.MaxNumTriggers
    ensures forall c :: c in good ==>
      c != GlmMarking.BadClusterId && exists row :: row in ds.ranks && row.0 == c && row.1 >= GlmConfig.ValidRank
    ensures var cs := Candidates(ds.ranks, ds.dets, ds.events.parentGroupId, ds.clusterId);
      forall key :: key in ds.rocketProb <==> key in old(ds.rocketProb) || GlmFilters.Scored(ds.dets, ds.clusterId, cs, classify, key)
  {
    var ranks := ds.ranks;
    var goodRows := RowsAtLeast(ranks, GlmConfig.ValidRank);
    var strong := RowsAtLeast(goodRows, GlmConfig.StrongSignalRankThreshold);
    var weak := RowsBelow(goodRows, GlmConfig.StrongSignalRankThreshold);
    var weakIds := RowIds(weak);
    if |weakIds| > 0 {
      var d, parents, ids := ds.dets, ds.events.parentGroupId, ds.clusterId;
      var kept := ds.OmitLargeGroupSizeClusters(weakIds);
      WeakKeptAreWeak(weakIds, c => GlmFilters.LargeGroupRejects(d, parents, ids, c), kept);
      weakIds := kept;
    }
    assert weakIds == WeakKept(ranks, ds.dets, ds.events.parentGroupId, ds.clusterId);
    var d, ids := ds.dets, ds.clusterId;
    var passed := ds.RocketFilter(RowIds(strong) + weakIds, classify);
    good := CapTriggers(passed);
    forall c | c in good
      ensures c != GlmMarking.BadClusterId && exists row :: row in ranks && row.0 == c && row.1 >= GlmConfig.ValidRank
    {
      TriggersRanked(ranks, weakIds, passed, c => GlmFilters.RocketRejects(d, ids, classify, c), c);
    }
  }

  /** The marking and ranking steps of `process_glm_files`: the cluster
      marks on the clustered ids, then the point marks on the result, then
      the ranks. */
  method MarkAndRank(ds: GlmDataSetModel.GlmDataSet, timeToProcess: real, q: GlmClustering.Limits,
                     nonParallel: (Vec3, Vec3) -> bool, altitude: Vec3 -> real,
                     pierce: (Vec3, Vec3, real) -> Vec3, geodetic: Vec3 -> (real, real, real))
    requires ds.Valid()
    modifies ds`dets, ds`clusterId, ds`ranks, ds`location, ds`numClusters
    ensures ds.Valid()
    ensures var marked := MarkedAfterClustering(Clustered(old(ds.clusterId), old(ds.dets), q), old(ds.dets), old(ds.basetime),
                                                old(ds.filesStart), old(ds.filesEnd), timeToProcess, nonParallel, altitude);
      ds.dets == old(ds.dets).(highest := GlmPeaks.Highest(marked, old(ds.dets.sat), old(ds.dets.time),
                                                           old(ds.dets.energy), old(ds.dets.highest)),
                               fitness := ds.dets.fitness) &&
      GlmFitness.BadPointsMarked(marked, ds.dets.sat, ds.dets.highest, ds.dets.time, old(ds.dets.fitness), ds.dets.fitness) &&
      GlmFitness.EnergyRuleMarked(marked, ds.dets.sat, ds.dets.highest, ds.dets.time, ds.dets.energy, ds.dets.fitness) &&
      ds.clusterId == GlmMarking.Marked(marked, GlmPosition.Goes19Marks(ds.dets, ds.location, pierce, geodetic))
    ensures GlmRank.RanksFor(ds.clusterId, ds.dets.sat, ds.dets.highest, ds.dets.fitness, ds.dets.time, ds.dets.energy,
                             GlmConfig.MinEnergyLvlJ, Unique(ds.clusterId), ds.ranks)
  {
    MarkClusters(ds, timeToProcess, q, nonParallel, altitude);
    MarkPointsAndRank(ds, pierce, geodetic);
  }

  /** The selection steps of `process_glm_files`: the triggering clusters
      are `Selected` of the data set, their velocities are estimated, and
      the event data is pruned to them. */
  method SelectAndPrune(ds: GlmDataSetModel.GlmDataSet, classify: (seq<real>, seq<real>, seq<real>) -> real,
                        nonParallel: (Vec3, Vec3) -> bool)
    returns (good: seq<int>)
    requires ds.Valid()
    modifies ds`rocketProb, ds`velocities, ds`events
    ensures ds.Valid()
    ensures good == Selected(ds.ranks, ds.dets, old(ds.events).parentGroupId, ds.clusterId, classify)
    ensures |good| < GlmConfig.MaxNumTriggers
    ensures forall c :: c in good ==>
      c != GlmMarking.BadClusterId && exists row :: row in ds.ranks && row.0 == c && row.1 >= GlmConfig.ValidRank
    ensures ds.events == GlmEvents.PruneEventData(old(ds.events), ds.dets.group, ds.clusterId, good)
  {
    good := SelectTriggers(ds, classify);
    ds.EstimateVelocities(good, nonParallel);
    ds.PruneEventDataByGroupId(good);
  }

  /** The steps of `process_glm_files` once at least one file was loaded:
      the marks and the ranks, then the triggering clusters, which are
      `Selected` of the result, and the event data pruned to them. */
  method ProcessLoaded(ds: GlmDataSetModel.GlmDataSet, timeToProcess: real,
                       q: GlmClustering.Limits, nonParallel: (Vec3, Vec3) -> bool, altitude: Vec3 -> real,
                       pierce: (Vec3, Vec3, real) -> Vec3, geodetic: Vec3 -> (real, real, real),
                       classify: (seq<real>, seq<real>, seq<real>) -> real)
    returns (good: seq<int>)
    requires ds.Valid()
    modifies ds`dets, ds`clusterId, ds`ranks, ds`location, ds`numClusters, ds`rocketProb, ds`velocities, ds`events
    ensures ds.Valid()
    ensures |good| < GlmConfig.MaxNumTriggers
    ensures forall c :: c in good ==>
      c != GlmMarking.BadClusterId && exists row :: row in ds.ranks && row.0 == c && row.1 >= GlmConfig.ValidRank
    ensures var marked := MarkedAfterClustering(Clustered(old(ds.clusterId), old(ds.dets), q), old(ds.dets), old(ds.basetime),
                                                old(ds.filesStart), old(ds.filesEnd), timeToProcess, nonParallel, altitude);
      ds.dets == old(ds.dets).(highest := GlmPeaks.Highest(marked, old(ds.dets.sat), old(ds.dets.time),
                                                           old(ds.dets.energy), old(ds.dets.highest)),
                               fitness := ds.dets.fitness) &&
      GlmFitness.BadPointsMarked(marked, ds.dets.sat, ds.dets.highest, ds.dets.time, old(ds.dets.fitness), ds.dets.fitness) &&
      GlmFitness.EnergyRuleMarked(marked, ds.dets.sat, ds.dets.highest, ds.dets.time, ds.dets.energy, ds.dets.fitness) &&
      ds.clusterId == GlmMarking.Marked(marked, GlmPosition.Goes19Marks(ds.dets, ds.location, pierce, geodetic))
    ensures GlmRank.RanksFor(ds.clusterId, ds.dets.sat, ds.dets.highest, ds.dets.fitness, ds.dets.time, ds.dets.energy,
                       GlmConfig.MinEnergyLvlJ, Unique(ds.clusterId), ds.ranks)
    ensures good == Selected(ds.ranks, ds.dets, old(ds.events).parentGroupId, ds.clusterId, classify) &&
      ds.events == GlmEvents.PruneEventData(old(ds.events), ds.dets.group, ds.clusterId, good)
  {
    MarkAndRank(ds, timeToProcess, q, nonParallel, altitude, pierce, geodetic);
    ghost var ids, d, ranks := ds.clusterId, ds.dets, ds.ranks;
    good := SelectAndPrune(ds, classify, nonParallel);
    assert ds.clusterId == ids && ds.dets == d && ds.ranks == ranks;
  }

  /** `process_glm_files` after loading: `numValidFiles` is what
      `load_glm_data_at_time` reported. With no valid file nothing is done.
      Otherwise the data set goes through the cluster marks, the point
      marks and the ranks, the triggering clusters are `Selected` of the
      result, and the event data is pruned to them. Returns the number of
      files, the number of triggering clusters and the clusters
      themselves; each of them is good, ranked at or above the valid rank,
      and there are fewer than `MaxNumTriggers`. The geometry and the
      classifier are parameters. */
  method ProcessGlmFiles(ds: GlmDataSetModel.GlmDataSet, numValidFiles: nat, timeToProcess: real,
                         q: GlmClustering.Limits, nonParallel: (Vec3, Vec3) -> bool, altitude: Vec3 -> real,
                         pierce: (Vec3, Vec3, real) -> Vec3, geodetic: Vec3 -> (real, real, real),
                         classify: (seq<real>, seq<real>, seq<real>) -> real)
    returns (numFiles: nat, numGood: nat, good: seq<int>)
    requires ds.Valid()
    modifies ds`dets, ds`clusterId, ds`ranks, ds`location, ds`numClusters, ds`rocketProb, ds`velocities, ds`events
    ensures ds.Valid()
    ensures numValidFiles == 0 ==> numFiles == 0 && numGood == 0 && good == [] && unchanged(ds)
    ensures numValidFiles != 0 ==> numFiles == numValidFiles
    ensures numGood == |good| < GlmConfig.MaxNumTriggers
    ensures forall c :: c in good ==>
      c != GlmMarking.BadClusterId && exists row :: row in ds.ranks && row.0 == c && row.1 >= GlmConfig.ValidRank
    ensures numValidFiles != 0 ==>
      var marked := MarkedAfterClustering(Clustered(old(ds.clusterId), old(ds.dets), q), old(ds.dets), old(ds.basetime),
                                          old(ds.filesStart), old(ds.filesEnd), timeToProcess, nonParallel, altitude);
      ds.dets == old(ds.dets).(highest := GlmPeaks.Highest(marked, old(ds.dets.sat), old(ds.dets.time),
                                                           old(ds.dets.energy), old(ds.dets.highest)),
                               fitness := ds.dets.fitness) &&
      GlmFitness.BadPointsMarked(marked, ds.dets.sat, ds.dets.highest, ds.dets.time, old(ds.dets.fitness), ds.dets.fitness) &&
      GlmFitness.EnergyRuleMarked(marked, ds.dets.sat, ds.dets.highest, ds.dets.time, ds.dets.energy, ds.dets.fitness) &&
      ds.clusterId == GlmMarking.Marked(marked, GlmPosition.Goes19Marks(ds.dets, ds.location, pierce, geodetic))
    ensures numValidFiles != 0 ==>
      GlmRank.RanksFor(ds.clusterId, ds.dets.sat, ds.dets.highest, ds.dets.fitness, ds.dets.time, ds.dets.energy,
                       GlmConfig.MinEnergyLvlJ, Unique(ds.clusterId), ds.ranks)
    ensures numValidFiles != 0 ==>
      good == Selected(ds.ranks, ds.dets, old(ds.events).parentGroupId, ds.clusterId, classify) &&
      ds.events == GlmEvents.PruneEventData(old(ds.events), ds.dets.group, ds.clusterId, good)
  {
    if numValidFiles == 0 {
      return 0, 0, [];
    }
    good := ProcessLoaded(ds, timeToProcess, q, nonParallel, altitude, pierce, geodetic, classify);
    return numValidFiles, |good|, good;
  }
}
