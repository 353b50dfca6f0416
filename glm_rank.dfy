/** `GlmDataSet.rank_glm_clusters`: a cluster's rank is the longest
    stretch, in time order, of detections whose energy rises more than the
    minimum energy above the group's baseline, taken over its satellites.
    Only the detections flagged both highest energy and fit take part, and
    a satellite needs at least two of them. */
module GlmRank {
  import opened ArrayOps
  import MathHelpers
  import GlmMarking
  import GlmFitness

  predicate Sorted(s: seq<real>)
  {
    forall a, b :: 0 <= a < b < |s| ==> s[a] <= s[b]
  }

  /** `np.sort`: the values in non-decreasing order. */
  function SortedValues(xs: seq<real>): (r: seq<real>)
    ensures |r| == |xs| && Sorted(r)
  {
    var order := ArgSort(xs);
    Gather(xs, order)
  }

  /** `np.median` of values already in order: the middle value, or the mean
      of the two middle values. */
  function MedianOfSorted(s: seq<real>): (r: real)
    requires |s| > 0
  {
    var n := |s|;
    if n % 2 == 1 then s[n / 2] else (s[n / 2 - 1] + s[n / 2]) / 2.0
  }

  /** The median is at least the lower half of the values and at most the
      upper half. */
  lemma MedianSplits(s: seq<real>)
    requires |s| > 0 && Sorted(s)
    ensures forall j :: 0 <= j < (|s| + 1) / 2 ==> s[j] <= MedianOfSorted(s)
    ensures forall j :: |s| / 2 <= j < |s| ==> MedianOfSorted(s) <= s[j]
  {
  }

  /** The median lies between the smallest and the largest value. */
  lemma MedianBounds(s: seq<real>)
    requires |s| > 0 && Sorted(s)
    ensures s[0] <= MedianOfSorted(s) <= s[|s| - 1]
  {
    MedianSplits(s);
    assert 0 < (|s| + 1) / 2 && |s| / 2 <= |s| - 1;
  }

  /** `int(np.ceil(n * 0.1))`: how many of the smallest energies the
      baseline is taken from. */
  function BaselineCount(n: nat): (r: nat)
    ensures n > 0 ==> 1 <= r <= n
    ensures r * 10 >= n && (r == 0 || (r - 1) * 10 < n)
  {
    (n + 9) / 10
  }

  /** The baseline energy of a group: the median of its smallest tenth. */
  function Baseline(es: seq<real>): (b: real)
    requires |es| > 0
  {
    var sorted := SortedValues(es);
    MedianOfSorted(sorted[..BaselineCount(|es|)])
  }

  /** The baseline lies between the group's smallest energy and the
      largest energy of its smallest tenth. */
  lemma {:induction false} BaselineBounds(es: seq<real>)
    requires |es| > 0
    ensures var sorted := SortedValues(es);
      sorted[0] <= Baseline(es) <= sorted[BaselineCount(|es|) - 1]
  {
    var sorted := SortedValues(es);
    var sub := sorted[..BaselineCount(|es|)];
    assert Sorted(sub);
    MedianBounds(sub);
    assert sub[0] == sorted[0] && sub[|sub| - 1] == sorted[BaselineCount(|es|) - 1];
  }

  /** A group's energies in time order, less its baseline. */
  function Series(ts: seq<real>, es: seq<real>): (r: seq<real>)
    requires |ts| == |es| > 0
    ensures |r| == |ts|
  {
    var order := ArgSort(ts);
    var b := Baseline(es);
    seq(|ts|, a requires 0 <= a < |ts| => es[order[a]] - b)
  }

  /** One group's rank: the best run of `continuous_above_min` over the group's series with
      no mistakes allowed. */
  method GroupRank(ts: seq<real>, es: seq<real>, minEnergy: real) returns (rank: nat)
    requires |ts| == |es| >= 2
    ensures rank == MathHelpers.AboveMinCounters(Series(ts, es), minEnergy, 0).best
    ensures MathHelpers.LongestRun(Series(ts, es), minEnergy) <= rank <= MathHelpers.CountAbove(Series(ts, es), minEnergy)
  {
    var sorted := SortedValues(es);
    var subset := sorted[..BaselineCount(|es|)];
    var baseline := MedianOfSorted(subset);
    var order := ArgSort(ts);
    var e := seq(|ts|, a requires 0 <= a < |ts| => es[order[a]] - baseline);
    assert e == Series(ts, es);
    rank := MathHelpers.ContinuousAboveMin(e, minEnergy, 0);
  }

  /** The detections of cluster `c` seen by satellite `s` that are flagged
      highest energy and fit. */
  function RankMask(ids: seq<int>, sats: seq<int>, highest: seq<int>, fitness: seq<int>, c: int, s: int): (m: seq<bool>)
    requires |ids| == |sats| == |highest| == |fitness|
    ensures |m| == |ids|
    ensures forall k :: 0 <= k < |ids| ==> (m[k] <==> ids[k] == c && sats[k] == s && highest[k] == 1 && fitness[k] == 1)
  {
    And(GlmFitness.FitMask(ids, sats, highest, c, s), EqualMask(fitness, 1))
  }

  /** Satellite `s` contributes to the rank of cluster `c`. */
  predicate Qualifies(ids: seq<int>, sats: seq<int>, highest: seq<int>, fitness: seq<int>, c: int, s: int)
    requires |ids| == |sats| == |highest| == |fitness|
  {
    CountTrue(RankMask(ids, sats, highest, fitness, c, s)) >= 2
  }

  /** The series satellite `s` contributes to the rank of cluster `c`. */
  function SeriesOf(ids: seq<int>, sats: seq<int>, highest: seq<int>, fitness: seq<int>, times: seq<real>, energies: seq<real>,
                    c: int, s: int): (r: seq<real>)
    requires |ids| == |sats| == |highest| == |fitness| == |times| == |energies|
    requires Qualifies(ids, sats, highest, fitness, c, s)
  {
    var m := RankMask(ids, sats, highest, fitness, c, s);
    Series(Select(times, m), Select(energies, m))
  }

  /** Only satellites that saw the cluster qualify. */
  lemma QualifiesSeen(ids: seq<int>, sats: seq<int>, highest: seq<int>, fitness: seq<int>, c: int, s: int)
    requires |ids| == |sats| == |highest| == |fitness| && Qualifies(ids, sats, highest, fitness, c, s)
    ensures s in sats && c in ids
  {
    var k := Where(RankMask(ids, sats, highest, fitness, c, s))[0];
    assert sats[k] == s && ids[k] == c;
  }

  /** `rank` is at least `lo(s)` for every visited satellite `s` that
      qualifies, and is either 0 or at most `hi(s)` for one of them. */
  predicate MaxOver(done: seq<int>, q: int -> bool, lo: int -> nat, hi: int -> nat, rank: nat)
  {
    (forall s :: s in done && q(s) ==> lo(s) <= rank) &&
    (rank == 0 || exists s :: s in done && q(s) && rank <= hi(s))
  }

  /** Keeping the larger of the rank so far and a new satellite's rank. */
  lemma MaxOverStep(done: seq<int>, q: int -> bool, lo: int -> nat, hi: int -> nat, rank: nat, s: int, cur: nat)
    requires MaxOver(done, q, lo, hi, rank) && (q(s) ==> lo(s) <= cur <= hi(s))
    ensures MaxOver(done + [s], q, lo, hi, if q(s) && cur > rank then cur else rank)
  {
    forall y ensures y in done + [s] <==> y in done || y == s {
      assert y in done + [s] <==> y in done || y in [s];
    }
    if !(q(s) && cur > rank) && rank != 0 {
      var y :| y in done && q(y) && rank <= hi(y);
      assert y in done + [s];
    }
  }

  /** The satellites that qualify for cluster `c`. */
  function Qualifying(ids: seq<int>, sats: seq<int>, highest: seq<int>, fitness: seq<int>, c: int): int -> bool
    requires |ids| == |sats| == |highest| == |fitness|
  {
    s => Qualifies(ids, sats, highest, fitness, c, s)
  }

  /** The longest run of each qualifying satellite of cluster `c`. */
  function RunOf(ids: seq<int>, sats: seq<int>, highest: seq<int>, fitness: seq<int>, times: seq<real>, energies: seq<real>,
                 minEnergy: real, c: int): int -> nat
    requires |ids| == |sats| == |highest| == |fitness| == |times| == |energies|
  {
    s => if Qualifies(ids, sats, highest, fitness, c, s)
         then MathHelpers.LongestRun(SeriesOf(ids, sats, highest, fitness, times, energies, c, s), minEnergy) else 0
  }

  /** The above-threshold count of each qualifying satellite of cluster `c`. */
  function CountOf(ids: seq<int>, sats: seq<int>, highest: seq<int>, fitness: seq<int>, times: seq<real>, energies: seq<real>,
                   minEnergy: real, c: int): int -> nat
    requires |ids| == |sats| == |highest| == |fitness| == |times| == |energies|
  {
    s => if Qualifies(ids, sats, highest, fitness, c, s)
         then MathHelpers.CountAbove(SeriesOf(ids, sats, highest, fitness, times, energies, c, s), minEnergy) else 0
  }

  /** The `continuous_above_min` rank, with no mistakes allowed, of each
      qualifying satellite of cluster `c`. */
  function SatRankOf(ids: seq<int>, sats: seq<int>, highest: seq<int>, fitness: seq<int>, times: seq<real>, energies: seq<real>,
                     minEnergy: real, c: int): int -> nat
    requires |ids| == |sats| == |highest| == |fitness| == |times| == |energies|
  {
    s => if Qualifies(ids, sats, highest, fitness, c, s)
         then MathHelpers.AboveMinCounters(SeriesOf(ids, sats, highest, fitness, times, energies, c, s), minEnergy, 0).best else 0
  }

  /** The rank of cluster `c` once the satellites in `done` are visited:
      at least the rank of each qualifying one, and either 0 or the rank of
      one of them; so 0 when none qualifies and otherwise their largest
      rank. */
  predicate RankSoFar(ids: seq<int>, sats: seq<int>, highest: seq<int>, fitness: seq<int>, times: seq<real>, energies: seq<real>,
                      minEnergy: real, c: int, done: seq<int>, rank: nat)
    requires |ids| == |sats| == |highest| == |fitness| == |times| == |energies|
  {
    var ex := SatRankOf(ids, sats, highest, fitness, times, energies, minEnergy, c);
    MaxOver(done, Qualifying(ids, sats, highest, fitness, c), ex, ex, rank)
  }

  /** A cluster's rank is at least the longest run of every visited
      qualifying satellite, and either 0 or within the above-threshold count
      of one of them. */
  lemma RankBounds(ids: seq<int>, sats: seq<int>, highest: seq<int>, fitness: seq<int>, times: seq<real>, energies: seq<real>,
                   minEnergy: real, c: int, done: seq<int>, rank: nat)
    requires |ids| == |sats| == |highest| == |fitness| == |times| == |energies|
    requires RankSoFar(ids, sats, highest, fitness, times, energies, minEnergy, c, done, rank)
    ensures MaxOver(done, Qualifying(ids, sats, highest, fitness, c), RunOf(ids, sats, highest, fitness, times, energies, minEnergy, c),
                    CountOf(ids, sats, highest, fitness, times, energies, minEnergy, c), rank)
  {
    var q := Qualifying(ids, sats, highest, fitness, c);
    var ex := SatRankOf(ids, sats, highest, fitness, times, energies, minEnergy, c);
    var lo := RunOf(ids, sats, highest, fitness, times, energies, minEnergy, c);
    var hi := CountOf(ids, sats, highest, fitness, times, energies, minEnergy, c);
    forall s | q(s)
      ensures lo(s) <= ex(s) <= hi(s)
    {
      MathHelpers.AboveMinBounds(SeriesOf(ids, sats, highest, fitness, times, energies, c, s), minEnergy, 0);
    }
  }

  /** One satellite of the loop in `ClusterRank`. */
  method VisitSat(ids: seq<int>, sats: seq<int>, highest: seq<int>, fitness: seq<int>, times: seq<real>, energies: seq<real>,
                  minEnergy: real, c: int, ghost q: int -> bool, ghost ex: int -> nat,
                  ghost done: seq<int>, s: int, rank: nat) returns (next: nat)
    requires |ids| == |sats| == |highest| == |fitness| == |times| == |energies|
    requires q == Qualifying(ids, sats, highest, fitness, c)
    requires ex == SatRankOf(ids, sats, highest, fitness, times, energies, minEnergy, c)
    requires MaxOver(done, q, ex, ex, rank)
    ensures MaxOver(done + [s], q, ex, ex, next)
  {
    var m := RankMask(ids, sats, highest, fitness, c, s);
    var cur: nat := 0;
    if CountTrue(m) >= 2 {
      cur := GroupRank(Select(times, m), Select(energies, m), minEnergy);
    }
    assert q(s) == (CountTrue(m) >= 2);
    assert q(s) ==> cur == ex(s);
    MaxOverStep(done, q, ex, ex, rank, s, cur);
    next := rank;
    if CountTrue(m) >= 2 && cur > rank {
      next := cur;
    }
  }

  /** The satellite loop of one good cluster: the largest rank over its
      satellites. */
  method ClusterRank(ids: seq<int>, sats: seq<int>, highest: seq<int>, fitness: seq<int>, times: seq<real>, energies: seq<real>,
                     minEnergy: real, c: int) returns (rank: nat)
    requires |ids| == |sats| == |highest| == |fitness| == |times| == |energies|
    ensures RankSoFar(ids, sats, highest, fitness, times, energies, minEnergy, c, Unique(sats), rank)
  {
    ghost var q := Qualifying(ids, sats, highest, fitness, c);
    ghost var ex := SatRankOf(ids, sats, highest, fitness, times, energies, minEnergy, c);
    var vs := Unique(sats);
    rank := 0;
    for j := 0 to |vs|
      invariant MaxOver(vs[..j], q, ex, ex, rank)
    {
      var s := vs[j];
      rank := VisitSat(ids, sats, highest, fitness, times, energies, minEnergy, c, q, ex, vs[..j], s, rank);
      PrefixStep(vs, j);
    }
    PrefixAll(vs);
  }

  /** A row of the ranks table, as `rank_glm_clusters` leaves it. */
  predicate RankRow(ids: seq<int>, sats: seq<int>, highest: seq<int>, fitness: seq<int>, times: seq<real>, energies: seq<real>,
                    minEnergy: real, row: (int, nat))
    requires |ids| == |sats| == |highest| == |fitness| == |times| == |energies|
  {
    if row.0 == GlmMarking.BadClusterId then row.1 == 0
    else RankSoFar(ids, sats, highest, fitness, times, energies, minEnergy, row.0, sats, row.1)
  }

  /** `rank_glm_clusters`: one row `(cluster id, rank)` per distinct cluster
      id, in increasing id order; the bad cluster ranks 0. A good cluster's
      rank is 0 when no satellite qualifies and otherwise the largest
      `continuous_above_min` rank of its qualifying satellites. */
  method RankGlmClusters(ids: seq<int>, sats: seq<int>, highest: seq<int>, fitness: seq<int>, times: seq<real>, energies: seq<real>,
                         minEnergy: real) returns (ranks: seq<(int, nat)>)
    requires |ids| == |sats| == |highest| == |fitness| == |times| == |energies|
    ensures RanksFor(ids, sats, highest, fitness, times, energies, minEnergy, Unique(ids), ranks)
  {
    var us := Unique(ids);
    ranks := [];
    for i := 0 to |us|
      invariant RanksFor(ids, sats, highest, fitness, times, energies, minEnergy, us[..i], ranks)
    {
      var c := us[i];
      var rank := RankOf(ids, sats, highest, fitness, times, energies, minEnergy, c);
      RanksAppend(ids, sats, highest, fitness, times, energies, minEnergy, us[..i], ranks, c, rank);
      PrefixStep(us, i);
      ranks := ranks + [(c, rank)];
    }
    PrefixAll(us);
  }

  /** `ranks` has one row per id of `cs`, in the same order. */
  predicate RanksFor(ids: seq<int>, sats: seq<int>, highest: seq<int>, fitness: seq<int>, times: seq<real>, energies: seq<real>,
                     minEnergy: real, cs: seq<int>, ranks: seq<(int, nat)>)
    requires |ids| == |sats| == |highest| == |fitness| == |times| == |energies|
  {
    |ranks| == |cs| &&
    forall a :: 0 <= a < |ranks| ==> ranks[a].0 == cs[a] && RankRow(ids, sats, highest, fitness, times, energies, minEnergy, ranks[a])
  }

  /** The rank of one cluster id. */
  method RankOf(ids: seq<int>, sats: seq<int>, highest: seq<int>, fitness: seq<int>, times: seq<real>, energies: seq<real>,
                minEnergy: real, c: int) returns (rank: nat)
    requires |ids| == |sats| == |highest| == |fitness| == |times| == |energies|
    ensures RankRow(ids, sats, highest, fitness, times, energies, minEnergy, (c, rank))
  {
    rank := 0;
    if c != GlmMarking.BadClusterId {
      rank := ClusterRank(ids, sats, highest, fitness, times, energies, minEnergy, c);
      RankOverAllSats(ids, sats, highest, fitness, times, energies, minEnergy, c, rank);
    }
  }

  lemma RanksAppend(ids: seq<int>, sats: seq<int>, highest: seq<int>, fitness: seq<int>, times: seq<real>, energies: seq<real>,
                    minEnergy: real, cs: seq<int>, ranks: seq<(int, nat)>, c: int, rank: nat)
    requires |ids| == |sats| == |highest| == |fitness| == |times| == |energies|
    requires RanksFor(ids, sats, highest, fitness, times, energies, minEnergy, cs, ranks)
    requires RankRow(ids, sats, highest, fitness, times, energies, minEnergy, (c, rank))
    ensures RanksFor(ids, sats, highest, fitness, times, energies, minEnergy, cs + [c], ranks + [(c, rank)])
  {
    var r2 := ranks + [(c, rank)];
    forall a | 0 <= a < |r2|
      ensures r2[a].0 == (cs + [c])[a] && RankRow(ids, sats, highest, fitness, times, energies, minEnergy, r2[a])
    {
      if a < |ranks| {
        assert r2[a] == ranks[a];
      }
    }
  }

  /** Visiting `np.unique(sat_id)` is visiting every satellite that can qualify. */
  lemma RankOverAllSats(ids: seq<int>, sats: seq<int>, highest: seq<int>, fitness: seq<int>, times: seq<real>, energies: seq<real>,
                        minEnergy: real, c: int, rank: nat)
    requires |ids| == |sats| == |highest| == |fitness| == |times| == |energies|
    requires RankSoFar(ids, sats, highest, fitness, times, energies, minEnergy, c, Unique(sats), rank)
    ensures RankSoFar(ids, sats, highest, fitness, times, energies, minEnergy, c, sats, rank)
  {
    forall s | Qualifies(ids, sats, highest, fitness, c, s)
      ensures s in sats
    {
      QualifiesSeen(ids, sats, highest, fitness, c, s);
    }
  }
}
