/** `GlmDataSet.mark_bad_points`: within each good cluster and satellite,
    the detections flagged as highest energy are put in time order and run
    through `energy_filter` forwards and backwards; a detection keeps
    fitness 1 when either pass accepts it. */
module GlmFitness {
  import opened ArrayOps
  import MathHelpers
  import GlmMarking
  import GlmPeaks

  /** `energy_filter_width` and `max_valid_drop`. */
  const FilterWidth: int := 5
  const MaxValidDrop: real := 5.0

  /** The detections of cluster `c` seen by satellite `s` that are flagged
      as highest energy. */
  function FitMask(ids: seq<int>, sats: seq<int>, highest: seq<int>, c: int, s: int): (m: seq<bool>)
    requires |ids| == |sats| == |highest|
    ensures |m| == |ids|
    ensures forall k :: 0 <= k < |ids| ==> (m[k] <==> ids[k] == c && sats[k] == s && highest[k] == 1)
  {
    And(GlmPeaks.GroupMask(ids, sats, c, s), EqualMask(highest, 1))
  }

  /** The group's detection that `np.argsort` of its times puts first. */
  function Earliest(ids: seq<int>, sats: seq<int>, highest: seq<int>, times: seq<real>, c: int, s: int): (k: nat)
    requires |ids| == |sats| == |highest| == |times| && CountTrue(FitMask(ids, sats, highest, c, s)) > 0
    ensures k < |ids|
  {
    var m := FitMask(ids, sats, highest, c, s);
    ArgSortPermutation(Select(times, m));
    Where(m)[ArgSort(Select(times, m))[0]]
  }

  /** The group's detection that `np.argsort` of its times puts last. */
  function Latest(ids: seq<int>, sats: seq<int>, highest: seq<int>, times: seq<real>, c: int, s: int): (k: nat)
    requires |ids| == |sats| == |highest| == |times| && CountTrue(FitMask(ids, sats, highest, c, s)) > 0
    ensures k < |ids|
  {
    var m := FitMask(ids, sats, highest, c, s);
    ArgSortPermutation(Select(times, m));
    Where(m)[ArgSort(Select(times, m))[CountTrue(m) - 1]]
  }

  /** The first and last detection in time order belong to the group and
      have its smallest and its largest time. */
  lemma {:induction false} EndsAreExtreme(ids: seq<int>, sats: seq<int>, highest: seq<int>, times: seq<real>, c: int, s: int)
    requires |ids| == |sats| == |highest| == |times| && CountTrue(FitMask(ids, sats, highest, c, s)) > 0
    ensures var m := FitMask(ids, sats, highest, c, s);
      var e, l := Earliest(ids, sats, highest, times, c, s), Latest(ids, sats, highest, times, c, s);
      m[e] && m[l] && forall i :: 0 <= i < |ids| && m[i] ==> times[e] <= times[i] <= times[l]
  {
    var m := FitMask(ids, sats, highest, c, s);
    var ts := Select(times, m);
    var w := Where(m);
    ArgSortEnds(ts);
    SelectAtWhere(times, m);
    forall i | 0 <= i < |ids| && m[i]
      ensures times[Earliest(ids, sats, highest, times, c, s)] <= times[i] <= times[Latest(ids, sats, highest, times, c, s)]
    {
      var b :| 0 <= b < |w| && w[b] == i;
      assert ts[b] == times[i];
    }
  }

  function Max(a: int, b: int): int
  {
    if a >= b then a else b
  }

  /** One group's new fitness: `ts` and `es` are its times and energies and
      `fit` its current fitness. Every value is 0 or 1, and the first and
      last detection in time order keep 1. */
  method GroupFitness(ts: seq<real>, es: seq<real>, fit: seq<int>) returns (r: seq<int>)
    requires |ts| == |es| == |fit| > 0
    ensures |r| == |ts|
    ensures forall p :: 0 <= p < |r| ==> r[p] == 0 || r[p] == 1
    ensures r[ArgSort(ts)[0]] == 1 && r[ArgSort(ts)[|ts| - 1]] == 1
    ensures forall j :: 0 <= j < |ts| ==> (r[ArgSort(ts)[j]] == 1 <==> KeptByEither(Gather(es, ArgSort(ts)), j))
  {
    var order := ArgSort(ts);
    ArgSortPermutation(ts);
    var n := |order|;
    var e := Gather(es, order);
    var both := BothPasses(e);
    r := ScatterAt(fit, order, both);
    ScatterFlags(fit, order, both);
  }

  /** The rule of `mark_bad_points` for point `a` of energies `e` in time
      order: it stays good when the forward or the backward `energy_filter`
      pass keeps it. */
  ghost predicate KeptByEither(e: seq<real>, a: nat)
    requires a < |e|
  {
    MathHelpers.EnergyFilterFlags(e, 0, |e| - 1, FilterWidth, MaxValidDrop)[a] == 1
    || MathHelpers.EnergyFilterFlags(e, |e| - 1, 0, FilterWidth, MaxValidDrop)[a] == 1
  }

  /** The two `energy_filter` passes over energies in time order, forwards
      and backwards, combined by their elementwise maximum: every flag is 0
      or 1 and both ends keep 1. */
  method BothPasses(e: seq<real>) returns (both: seq<int>)
    requires |e| > 0
    ensures |both| == |e|
    ensures forall a :: 0 <= a < |both| ==> both[a] == 0 || both[a] == 1
    ensures both[0] == 1 && both[|e| - 1] == 1
    ensures forall a :: 0 <= a < |e| ==> (both[a] == 1 <==> KeptByEither(e, a))
  {
    var n := |e|;
    var forward := MathHelpers.EnergyFilter(e, 0, n - 1, FilterWidth, MaxValidDrop);
    var backward := MathHelpers.EnergyFilter(e, n - 1, 0, FilterWidth, MaxValidDrop);
    assert forward[0] == 1 && backward[n - 1] == 1 by {
      if n == 1 {
        assert forward == [1] && backward == [1];
      }
    }
    both := MaxFlags(forward, backward);
    forall a | 0 <= a < n
      ensures KeptByEither(e, a) <==> forward[a] == 1 || backward[a] == 1
    {
    }
  }

  /** The elementwise maximum of two 0/1 flag sequences: 1 exactly where
      either has a 1. */
  function MaxFlags(f: seq<int>, b: seq<int>): (r: seq<int>)
    requires |f| == |b|
    requires forall a :: 0 <= a < |f| ==> (f[a] == 0 || f[a] == 1) && (b[a] == 0 || b[a] == 1)
    ensures |r| == |f|
    ensures forall a :: 0 <= a < |r| ==> (r[a] == 0 || r[a] == 1) && (r[a] == 1 <==> f[a] == 1 || b[a] == 1)
  {
    seq(|f|, a requires 0 <= a < |f| => Max(f[a], b[a]))
  }

  /** Writing 0/1 flags through a permutation leaves only 0/1 flags. */
  lemma ScatterFlags(fit: seq<int>, order: seq<nat>, both: seq<int>)
    requires |order| == |both| && forall j :: 0 <= j < |order| ==> order[j] < |fit|
    requires forall p :: 0 <= p < |fit| ==> p in order
    requires forall a :: 0 <= a < |both| ==> both[a] == 0 || both[a] == 1
    requires Distinct(order)
    ensures forall p :: 0 <= p < |fit| ==> ScatterAt(fit, order, both)[p] == 0 || ScatterAt(fit, order, both)[p] == 1
  {
    var r := ScatterAt(fit, order, both);
    forall p | 0 <= p < |fit| ensures r[p] == 0 || r[p] == 1 {
      assert p in order;
      var a :| 0 <= a < |order| && order[a] == p;
      assert r[order[a]] == both[a];
    }
  }

  /** The group of detection `k` has been visited. */
  predicate Visited(ids: seq<int>, sats: seq<int>, doneC: seq<int>, c: int, doneS: seq<int>, k: nat)
    requires |ids| == |sats| && k < |ids|
  {
    ids[k] in doneC || (ids[k] == c && sats[k] in doneS)
  }

  /** The new fitness after the groups described by `doneC`, `c` and
      `doneS` have been visited. */
  predicate FitSoFar(ids: seq<int>, sats: seq<int>, highest: seq<int>, times: seq<real>, fitness: seq<int>,
                     doneC: seq<int>, c: int, doneS: seq<int>, r: seq<int>)
    requires |ids| == |sats| == |highest| == |times| == |fitness|
  {
    |r| == |ids| &&
    (forall k :: 0 <= k < |ids| ==>
       if Visited(ids, sats, doneC, c, doneS, k) && ids[k] != GlmMarking.BadClusterId && highest[k] == 1
       then r[k] == 0 || r[k] == 1 else r[k] == fitness[k]) &&
    (forall k :: 0 <= k < |ids| && Visited(ids, sats, doneC, c, doneS, k) && ids[k] != GlmMarking.BadClusterId && highest[k] == 1 ==>
       (MaskNonEmpty(FitMask(ids, sats, highest, ids[k], sats[k]), k);
        r[Earliest(ids, sats, highest, times, ids[k], sats[k])] == 1 && r[Latest(ids, sats, highest, times, ids[k], sats[k])] == 1))
  }

  /** The fitness after `mark_bad_points`: detections outside the good
      highest-energy groups keep their fitness; inside them every value is 0
      or 1, and each group's first and last detection in time order keep 1. */
  predicate BadPointsMarked(ids: seq<int>, sats: seq<int>, highest: seq<int>, times: seq<real>, fitness: seq<int>, r: seq<int>)
    requires |ids| == |sats| == |highest| == |times| == |fitness|
  {
    |r| == |ids| &&
    (forall k :: 0 <= k < |ids| ==>
       if ids[k] != GlmMarking.BadClusterId && highest[k] == 1 then r[k] == 0 || r[k] == 1 else r[k] == fitness[k]) &&
    (forall k :: 0 <= k < |ids| && ids[k] != GlmMarking.BadClusterId && highest[k] == 1 ==>
       (MaskNonEmpty(FitMask(ids, sats, highest, ids[k], sats[k]), k);
        r[Earliest(ids, sats, highest, times, ids[k], sats[k])] == 1 && r[Latest(ids, sats, highest, times, ids[k], sats[k])] == 1))
  }

  /** The energy rule at detection `k` of a highest-energy group: `k` is good
      exactly when, at its place `j` in the group's time order, the forward or
      the backward pass of `energy_filter` over the group's energies in time
      order keeps it. */
  ghost predicate EnergyRuleAt(ids: seq<int>, sats: seq<int>, highest: seq<int>, times: seq<real>, energies: seq<real>,
                               r: seq<int>, k: nat)
    requires |ids| == |sats| == |highest| == |times| == |energies| == |r| && k < |ids|
  {
    var m := FitMask(ids, sats, highest, ids[k], sats[k]);
    var order := ArgSort(Select(times, m));
    ArgSortPermutation(Select(times, m));
    forall j :: 0 <= j < |order| && Where(m)[order[j]] == k ==>
      (r[k] == 1 <==> KeptByEither(Gather(Select(energies, m), order), j))
  }

  /** The energy rule holds at every visited detection of a good
      highest-energy group. */
  ghost predicate RuleSoFar(ids: seq<int>, sats: seq<int>, highest: seq<int>, times: seq<real>, energies: seq<real>,
                            doneC: seq<int>, c: int, doneS: seq<int>, r: seq<int>)
    requires |ids| == |sats| == |highest| == |times| == |energies| == |r|
  {
    forall k :: 0 <= k < |ids| && Visited(ids, sats, doneC, c, doneS, k) && ids[k] != GlmMarking.BadClusterId && highest[k] == 1 ==>
      EnergyRuleAt(ids, sats, highest, times, energies, r, k)
  }

  /** After `mark_bad_points` the energy rule holds at every detection of a
      good highest-energy group. */
  ghost predicate EnergyRuleMarked(ids: seq<int>, sats: seq<int>, highest: seq<int>, times: seq<real>, energies: seq<real>,
                                   r: seq<int>)
    requires |ids| == |sats| == |highest| == |times| == |energies| == |r|
  {
    forall k :: 0 <= k < |ids| && ids[k] != GlmMarking.BadClusterId && highest[k] == 1 ==>
      EnergyRuleAt(ids, sats, highest, times, energies, r, k)
  }

  /** The energy rule at `k` reads only the flag at `k`. */
  lemma RuleAtSame(ids: seq<int>, sats: seq<int>, highest: seq<int>, times: seq<real>, energies: seq<real>,
                   r: seq<int>, r2: seq<int>, k: nat)
    requires |ids| == |sats| == |highest| == |times| == |energies| == |r| == |r2| && k < |ids|
    requires r2[k] == r[k] && EnergyRuleAt(ids, sats, highest, times, energies, r, k)
    ensures EnergyRuleAt(ids, sats, highest, times, energies, r2, k)
  {
  }

  /** Writing a group's new fitness back keeps the energy rule, and makes it
      hold on the group when the new fitness follows it. */
  lemma {:induction false} RuleStep(ids: seq<int>, sats: seq<int>, highest: seq<int>, times: seq<real>, energies: seq<real>,
                                    doneC: seq<int>, c: int, doneS: seq<int>, s: int, r: seq<int>, gf: seq<int>)
    requires |ids| == |sats| == |highest| == |times| == |energies| == |r|
    requires RuleSoFar(ids, sats, highest, times, energies, doneC, c, doneS, r)
    requires |gf| == CountTrue(FitMask(ids, sats, highest, c, s))
    requires var m := FitMask(ids, sats, highest, c, s);
      var order := ArgSort(Select(times, m));
      forall j :: 0 <= j < |order| ==> (gf[order[j]] == 1 <==> KeptByEither(Gather(Select(energies, m), order), j))
    ensures RuleSoFar(ids, sats, highest, times, energies, doneC, c, doneS + [s], Scatter(r, FitMask(ids, sats, highest, c, s), gf))
  {
    var m := FitMask(ids, sats, highest, c, s);
    var r2 := Scatter(r, m, gf);
    VisitedStep(ids, sats, doneC, c, doneS, s);
    forall k | 0 <= k < |ids| && Visited(ids, sats, doneC, c, doneS + [s], k) && ids[k] != GlmMarking.BadClusterId && highest[k] == 1
      ensures EnergyRuleAt(ids, sats, highest, times, energies, r2, k)
    {
      if ids[k] == c && sats[k] == s {
        var order := ArgSort(Select(times, m));
        ArgSortPermutation(Select(times, m));
        forall j | 0 <= j < |order| && Where(m)[order[j]] == k
          ensures r2[k] == gf[order[j]]
        {
        }
      } else {
        RuleAtSame(ids, sats, highest, times, energies, r, r2, k);
      }
    }
  }

  /** A group without highest-energy detections keeps the energy rule. */
  lemma {:induction false} RuleSkip(ids: seq<int>, sats: seq<int>, highest: seq<int>, times: seq<real>, energies: seq<real>,
                                    doneC: seq<int>, c: int, doneS: seq<int>, s: int, r: seq<int>)
    requires |ids| == |sats| == |highest| == |times| == |energies| == |r|
    requires RuleSoFar(ids, sats, highest, times, energies, doneC, c, doneS, r)
    requires CountTrue(FitMask(ids, sats, highest, c, s)) == 0
    ensures RuleSoFar(ids, sats, highest, times, energies, doneC, c, doneS + [s], r)
  {
    VisitedStep(ids, sats, doneC, c, doneS, s);
    MaskEmpty(FitMask(ids, sats, highest, c, s));
  }

  /** Skipping the bad cluster keeps the energy rule. */
  lemma {:induction false} RuleSkipBad(ids: seq<int>, sats: seq<int>, highest: seq<int>, times: seq<real>, energies: seq<real>,
                                       doneC: seq<int>, r: seq<int>, c2: int)
    requires |ids| == |sats| == |highest| == |times| == |energies| == |r|
    requires RuleSoFar(ids, sats, highest, times, energies, doneC, c2, [], r)
    ensures RuleSoFar(ids, sats, highest, times, energies, doneC + [GlmMarking.BadClusterId], c2, [], r)
  {
    forall k | 0 <= k < |ids|
      ensures ids[k] in doneC + [GlmMarking.BadClusterId] <==> ids[k] in doneC || ids[k] == GlmMarking.BadClusterId
    {
      assert ids[k] in doneC + [GlmMarking.BadClusterId] <==> ids[k] in doneC || ids[k] in [GlmMarking.BadClusterId];
    }
  }

  /** Finishing a cluster's satellites keeps the energy rule. */
  lemma {:induction false} RuleClusterStep(ids: seq<int>, sats: seq<int>, highest: seq<int>, times: seq<real>, energies: seq<real>,
                                           doneC: seq<int>, c: int, vs: seq<int>, r: seq<int>, c2: int)
    requires |ids| == |sats| == |highest| == |times| == |energies| == |r|
    requires RuleSoFar(ids, sats, highest, times, energies, doneC, c, vs, r)
    requires forall k :: 0 <= k < |ids| ==> sats[k] in vs
    ensures RuleSoFar(ids, sats, highest, times, energies, doneC + [c], c2, [], r)
  {
    forall k | 0 <= k < |ids|
      ensures Visited(ids, sats, doneC + [c], c2, [], k) <==> Visited(ids, sats, doneC, c, vs, k)
    {
      assert ids[k] in doneC + [c] <==> ids[k] in doneC || ids[k] in [c];
    }
  }

  lemma VisitedStep(ids: seq<int>, sats: seq<int>, doneC: seq<int>, c: int, doneS: seq<int>, s: int)
    requires |ids| == |sats|
    ensures forall k :: 0 <= k < |ids| ==>
      (Visited(ids, sats, doneC, c, doneS + [s], k) <==> Visited(ids, sats, doneC, c, doneS, k) || (ids[k] == c && sats[k] == s))
  {
    forall k | 0 <= k < |ids|
      ensures sats[k] in doneS + [s] <==> sats[k] in doneS || sats[k] == s
    {
      assert sats[k] in doneS + [s] <==> sats[k] in doneS || sats[k] in [s];
    }
  }

  /** The first conjunct of `FitSoFar` after a group's new fitness is written back. */
  lemma {:induction false} FitValues(ids: seq<int>, sats: seq<int>, highest: seq<int>, times: seq<real>, fitness: seq<int>,
                                     doneC: seq<int>, c: int, doneS: seq<int>, s: int, r: seq<int>, gf: seq<int>)
    requires |ids| == |sats| == |highest| == |times| == |fitness| && c != GlmMarking.BadClusterId
    requires FitSoFar(ids, sats, highest, times, fitness, doneC, c, doneS, r)
    requires |gf| == CountTrue(FitMask(ids, sats, highest, c, s))
    requires forall p :: 0 <= p < |gf| ==> gf[p] == 0 || gf[p] == 1
    ensures var r2 := Scatter(r, FitMask(ids, sats, highest, c, s), gf);
      forall k :: 0 <= k < |ids| ==>
        if Visited(ids, sats, doneC, c, doneS + [s], k) && ids[k] != GlmMarking.BadClusterId && highest[k] == 1
        then r2[k] == 0 || r2[k] == 1 else r2[k] == fitness[k]
  {
    var m := FitMask(ids, sats, highest, c, s);
    var w := Where(m);
    VisitedStep(ids, sats, doneC, c, doneS, s);
    forall k | 0 <= k < |ids| && m[k]
      ensures Scatter(r, m, gf)[k] == 0 || Scatter(r, m, gf)[k] == 1
    {
      var a :| 0 <= a < |w| && w[a] == k;
    }
  }

  /** A group's first and last detection after its new fitness is written back. */
  lemma {:induction false} FitEnd(ids: seq<int>, sats: seq<int>, highest: seq<int>, times: seq<real>,
                                  c: int, s: int, r: seq<int>, gf: seq<int>, k: nat)
    requires |ids| == |sats| == |highest| == |times| == |r|
    requires |gf| == CountTrue(FitMask(ids, sats, highest, c, s)) > 0
    requires var order := ArgSort(Select(times, FitMask(ids, sats, highest, c, s)));
      gf[order[0]] == 1 && gf[order[|gf| - 1]] == 1
    requires k < |ids| && highest[k] == 1
    requires (ids[k] == c && sats[k] == s) || (MaskNonEmpty(FitMask(ids, sats, highest, ids[k], sats[k]), k);
      r[Earliest(ids, sats, highest, times, ids[k], sats[k])] == 1 && r[Latest(ids, sats, highest, times, ids[k], sats[k])] == 1)
    ensures var r2 := Scatter(r, FitMask(ids, sats, highest, c, s), gf);
      (MaskNonEmpty(FitMask(ids, sats, highest, ids[k], sats[k]), k);
       r2[Earliest(ids, sats, highest, times, ids[k], sats[k])] == 1 && r2[Latest(ids, sats, highest, times, ids[k], sats[k])] == 1)
  {
    MaskNonEmpty(FitMask(ids, sats, highest, ids[k], sats[k]), k);
    if ids[k] == c && sats[k] == s {
      FitEndInGroup(ids, sats, highest, times, c, s, r, gf);
    } else {
      FitEndOutside(ids, sats, highest, times, c, s, r, gf, ids[k], sats[k]);
    }
  }

  lemma FitEndInGroup(ids: seq<int>, sats: seq<int>, highest: seq<int>, times: seq<real>,
                      c: int, s: int, r: seq<int>, gf: seq<int>)
    requires |ids| == |sats| == |highest| == |times| == |r|
    requires |gf| == CountTrue(FitMask(ids, sats, highest, c, s)) > 0
    requires var order := ArgSort(Select(times, FitMask(ids, sats, highest, c, s)));
      gf[order[0]] == 1 && gf[order[|gf| - 1]] == 1
    ensures var r2 := Scatter(r, FitMask(ids, sats, highest, c, s), gf);
      r2[Earliest(ids, sats, highest, times, c, s)] == 1 && r2[Latest(ids, sats, highest, times, c, s)] == 1
  {
    var m := FitMask(ids, sats, highest, c, s);
    var r2 := Scatter(r, m, gf);
    var order := ArgSort(Select(times, m));
    ArgSortPermutation(Select(times, m));
    assert r2[Where(m)[order[0]]] == gf[order[0]];
    assert r2[Where(m)[order[|gf| - 1]]] == gf[order[|gf| - 1]];
  }

  lemma FitEndOutside(ids: seq<int>, sats: seq<int>, highest: seq<int>, times: seq<real>,
                      c: int, s: int, r: seq<int>, gf: seq<int>, c2: int, s2: int)
    requires |ids| == |sats| == |highest| == |times| == |r|
    requires |gf| == CountTrue(FitMask(ids, sats, highest, c, s))
    requires CountTrue(FitMask(ids, sats, highest, c2, s2)) > 0 && (c2 != c || s2 != s)
    ensures var r2 := Scatter(r, FitMask(ids, sats, highest, c, s), gf);
      r2[Earliest(ids, sats, highest, times, c2, s2)] == r[Earliest(ids, sats, highest, times, c2, s2)] &&
      r2[Latest(ids, sats, highest, times, c2, s2)] == r[Latest(ids, sats, highest, times, c2, s2)]
  {
    var m := FitMask(ids, sats, highest, c, s);
    EndsAreExtreme(ids, sats, highest, times, c2, s2);
    assert !m[Earliest(ids, sats, highest, times, c2, s2)] && !m[Latest(ids, sats, highest, times, c2, s2)];
  }

  /** Writing a visited group's new fitness back through its mask. */
  lemma {:induction false} FitStep(ids: seq<int>, sats: seq<int>, highest: seq<int>, times: seq<real>, fitness: seq<int>,
                                   doneC: seq<int>, c: int, doneS: seq<int>, s: int, r: seq<int>, gf: seq<int>)
    requires |ids| == |sats| == |highest| == |times| == |fitness| && c != GlmMarking.BadClusterId
    requires FitSoFar(ids, sats, highest, times, fitness, doneC, c, doneS, r)
    requires CountTrue(FitMask(ids, sats, highest, c, s)) > 0 && |gf| == CountTrue(FitMask(ids, sats, highest, c, s))
    requires forall p :: 0 <= p < |gf| ==> gf[p] == 0 || gf[p] == 1
    requires var order := ArgSort(Select(times, FitMask(ids, sats, highest, c, s)));
      gf[order[0]] == 1 && gf[order[|gf| - 1]] == 1
    ensures FitSoFar(ids, sats, highest, times, fitness, doneC, c, doneS + [s], Scatter(r, FitMask(ids, sats, highest, c, s), gf))
  {
    FitValues(ids, sats, highest, times, fitness, doneC, c, doneS, s, r, gf);
    VisitedStep(ids, sats, doneC, c, doneS, s);
    forall k | 0 <= k < |ids| && Visited(ids, sats, doneC, c, doneS + [s], k) && ids[k] != GlmMarking.BadClusterId && highest[k] == 1
      ensures var r2 := Scatter(r, FitMask(ids, sats, highest, c, s), gf);
        (MaskNonEmpty(FitMask(ids, sats, highest, ids[k], sats[k]), k);
         r2[Earliest(ids, sats, highest, times, ids[k], sats[k])] == 1 && r2[Latest(ids, sats, highest, times, ids[k], sats[k])] == 1)
    {
      FitEnd(ids, sats, highest, times, c, s, r, gf, k);
    }
  }

  /** A group without highest-energy detections changes nothing. */
  lemma {:induction false} FitSkip(ids: seq<int>, sats: seq<int>, highest: seq<int>, times: seq<real>, fitness: seq<int>,
                                   doneC: seq<int>, c: int, doneS: seq<int>, s: int, r: seq<int>)
    requires |ids| == |sats| == |highest| == |times| == |fitness|
    requires FitSoFar(ids, sats, highest, times, fitness, doneC, c, doneS, r)
    requires CountTrue(FitMask(ids, sats, highest, c, s)) == 0
    ensures FitSoFar(ids, sats, highest, times, fitness, doneC, c, doneS + [s], r)
  {
    VisitedStep(ids, sats, doneC, c, doneS, s);
    MaskEmpty(FitMask(ids, sats, highest, c, s));
  }

  /** The bad cluster is skipped. */
  lemma {:induction false} FitSkipBad(ids: seq<int>, sats: seq<int>, highest: seq<int>, times: seq<real>, fitness: seq<int>,
                                      doneC: seq<int>, r: seq<int>, c2: int)
    requires |ids| == |sats| == |highest| == |times| == |fitness|
    requires FitSoFar(ids, sats, highest, times, fitness, doneC, c2, [], r)
    ensures FitSoFar(ids, sats, highest, times, fitness, doneC + [GlmMarking.BadClusterId], c2, [], r)
  {
    forall k | 0 <= k < |ids|
      ensures ids[k] in doneC + [GlmMarking.BadClusterId] <==> ids[k] in doneC || ids[k] == GlmMarking.BadClusterId
    {
      assert ids[k] in doneC + [GlmMarking.BadClusterId] <==> ids[k] in doneC || ids[k] in [GlmMarking.BadClusterId];
    }
  }

  lemma {:induction false} FitClusterStep(ids: seq<int>, sats: seq<int>, highest: seq<int>, times: seq<real>, fitness: seq<int>,
                                          doneC: seq<int>, c: int, vs: seq<int>, r: seq<int>, c2: int)
    requires |ids| == |sats| == |highest| == |times| == |fitness|
    requires FitSoFar(ids, sats, highest, times, fitness, doneC, c, vs, r)
    requires forall k :: 0 <= k < |ids| ==> sats[k] in vs
    ensures FitSoFar(ids, sats, highest, times, fitness, doneC + [c], c2, [], r)
  {
    forall k | 0 <= k < |ids|
      ensures Visited(ids, sats, doneC + [c], c2, [], k) <==> Visited(ids, sats, doneC, c, vs, k)
    {
      assert ids[k] in doneC + [c] <==> ids[k] in doneC || ids[k] in [c];
    }
  }

  /** The satellite loop of one good cluster. */
  method MarkClusterFitness(ids: seq<int>, sats: seq<int>, highest: seq<int>, times: seq<real>, energies: seq<real>,
                            fitness: seq<int>, ghost doneC: seq<int>, c: int, r0: seq<int>) returns (r: seq<int>)
    requires |ids| == |sats| == |highest| == |times| == |energies| == |fitness| && c != GlmMarking.BadClusterId
    requires FitSoFar(ids, sats, highest, times, fitness, doneC, c, [], r0)
    requires RuleSoFar(ids, sats, highest, times, energies, doneC, c, [], r0)
    ensures FitSoFar(ids, sats, highest, times, fitness, doneC, c, Unique(sats), r)
    ensures RuleSoFar(ids, sats, highest, times, energies, doneC, c, Unique(sats), r)
  {
    var vs := Unique(sats);
    r := r0;
    for j := 0 to |vs|
      invariant FitSoFar(ids, sats, highest, times, fitness, doneC, c, vs[..j], r)
      invariant RuleSoFar(ids, sats, highest, times, energies, doneC, c, vs[..j], r)
    {
      var s := vs[j];
      assert vs[..j + 1] == vs[..j] + [s];
      var m := FitMask(ids, sats, highest, c, s);
      if CountTrue(m) == 0 {
        FitSkip(ids, sats, highest, times, fitness, doneC, c, vs[..j], s, r);
        RuleSkip(ids, sats, highest, times, energies, doneC, c, vs[..j], s, r);
      } else {
        var gf := GroupFitness(Select(times, m), Select(energies, m), Select(r, m));
        FitStep(ids, sats, highest, times, fitness, doneC, c, vs[..j], s, r, gf);
        RuleStep(ids, sats, highest, times, energies, doneC, c, vs[..j], s, r, gf);
        r := Scatter(r, m, gf);
      }
    }
    assert vs[..|vs|] == vs;
  }

  /** `mark_bad_points`. */
  method MarkBadPoints(ids: seq<int>, sats: seq<int>, highest: seq<int>, times: seq<real>, energies: seq<real>, fitness: seq<int>)
    returns (r: seq<int>)
    requires |ids| == |sats| == |highest| == |times| == |energies| == |fitness|
    ensures BadPointsMarked(ids, sats, highest, times, fitness, r)
    ensures |r| == |ids| && EnergyRuleMarked(ids, sats, highest, times, energies, r)
  {
    var us := Unique(ids);
    r := fitness;
    for i := 0 to |us|
      invariant FitSoFar(ids, sats, highest, times, fitness, us[..i], 0, [], r)
      invariant RuleSoFar(ids, sats, highest, times, energies, us[..i], 0, [], r)
    {
      var c := us[i];
      assert us[..i + 1] == us[..i] + [c];
      if c == GlmMarking.BadClusterId {
        FitSkipBad(ids, sats, highest, times, fitness, us[..i], r, 0);
        RuleSkipBad(ids, sats, highest, times, energies, us[..i], r, 0);
      } else {
        r := MarkClusterFitness(ids, sats, highest, times, energies, fitness, us[..i], c, r);
        FitClusterStep(ids, sats, highest, times, fitness, us[..i], c, Unique(sats), r, 0);
        RuleClusterStep(ids, sats, highest, times, energies, us[..i], c, Unique(sats), r, 0);
      }
    }
    assert forall k :: 0 <= k < |ids| ==> Visited(ids, sats, us, 0, [], k);
    assert us[..|us|] == us;
  }
}
