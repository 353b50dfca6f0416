/** `GlmDataSet.mark_higher_energies`: within each cluster and satellite,
    only one detection per time stamp is kept for the later filters, the
    first one carrying the largest energy at that time. The loop runs over
    the good clusters and all satellites; each (cluster, satellite) group
    is flagged from its own times and energies and the flags are written
    back through the group's mask. */
module GlmPeaks {
  import opened ArrayOps
  import GlmMarking

  /** The detections of cluster `c` seen by satellite `s`. */
  function GroupMask(ids: seq<int>, sats: seq<int>, c: int, s: int): (m: seq<bool>)
    requires |ids| == |sats|
    ensures |m| == |ids| && forall k :: 0 <= k < |ids| ==> (m[k] <==> ids[k] == c && sats[k] == s)
  {
    And(EqualMask(ids, c), EqualMask(sats, s))
  }

  // ---------------------------------------------------------------------
  // One group

  /** Detection `j` of a group is the first one holding the largest energy
      among the group's detections at its time. */
  predicate IsPeak(times: seq<real>, energies: seq<real>, j: nat)
    requires |times| == |energies| && j < |times|
  {
    (forall i :: 0 <= i < |times| && times[i] == times[j] ==> energies[i] <= energies[j]) &&
    (forall i :: 0 <= i < j && times[i] == times[j] ==> energies[i] < energies[j])
  }

  /** The flags of one group: 1 at the peaks, 0 elsewhere. */
  function PeakFlags(times: seq<real>, energies: seq<real>): (f: seq<int>)
    requires |times| == |energies|
    ensures |f| == |times|
  {
    seq(|times|, j requires 0 <= j < |times| => if IsPeak(times, energies, j) then 1 else 0)
  }

  /** Two peaks at the same time are the same detection. */
  lemma PeakUnique(times: seq<real>, energies: seq<real>, i: nat, j: nat)
    requires |times| == |energies| && i < |times| && j < |times| && times[i] == times[j]
    requires IsPeak(times, energies, i) && IsPeak(times, energies, j)
    ensures i == j
  {
  }

  /** The first position holding the largest energy of its time is a peak. */
  lemma FirstMaxIsPeak(times: seq<real>, energies: seq<real>, t: real, mx: real, idx: nat)
    requires |times| == |energies| && idx < |times|
    requires times[idx] == t && energies[idx] == mx
    requires forall i :: 0 <= i < |times| && times[i] == t ==> energies[i] <= mx
    requires forall i :: 0 <= i < idx && times[i] == t ==> energies[i] != mx
    ensures IsPeak(times, energies, idx)
  {
  }

  /** The flags after the times in `done` have been visited. */
  predicate FlagsSoFar(times: seq<real>, energies: seq<real>, done: seq<real>, flags: seq<int>)
    requires |times| == |energies|
  {
    |flags| == |times| &&
    forall k :: 0 <= k < |times| ==>
      flags[k] == if times[k] in done && IsPeak(times, energies, k) then 1 else 0
  }

  lemma {:induction false} FlagStep(times: seq<real>, energies: seq<real>, done: seq<real>, t: real, idx: nat, flags: seq<int>)
    requires |times| == |energies| && FlagsSoFar(times, energies, done, flags) && t !in done
    requires idx < |times| && times[idx] == t && IsPeak(times, energies, idx)
    ensures FlagsSoFar(times, energies, done + [t], flags[idx := 1])
  {
    forall k | 0 <= k < |times|
      ensures flags[idx := 1][k] == if times[k] in done + [t] && IsPeak(times, energies, k) then 1 else 0
    {
      assert times[k] in done + [t] <==> times[k] in done || times[k] == t;
      if times[k] == t && IsPeak(times, energies, k) {
        PeakUnique(times, energies, k, idx);
      }
    }
  }

  /** The position the source keeps for a time `t` that occurs once in a
      group: its only detection at `t`. */
  lemma {:induction false} KeptAlone(times: seq<real>, energies: seq<real>, t: real)
    requires |times| == |energies| && CountTrue(EqualMask(times, t)) == 1
    ensures var idx := Where(EqualMask(times, t))[0];
      times[idx] == t && IsPeak(times, energies, idx)
  {
    var same := EqualMask(times, t);
    var w := Where(same);
    var idx := w[0];
    forall i | 0 <= i < |times| && times[i] == t
      ensures i == idx
    {
      var a :| 0 <= a < |w| && w[a] == i;
    }
    FirstMaxIsPeak(times, energies, t, energies[idx], idx);
  }

  /** The position the source keeps for a time `t` that occurs several
      times in a group: the first detection at `t` whose energy equals the
      largest energy at `t`. */
  lemma {:induction false} KeptFirstMax(times: seq<real>, energies: seq<real>, t: real)
    requires |times| == |energies| && CountTrue(EqualMask(times, t)) > 0
    ensures var same := EqualMask(times, t);
      var es := Select(energies, same);
      var both := And(same, EqualMask(energies, es[ArgMax(es)]));
      CountTrue(both) > 0 && times[Where(both)[0]] == t && IsPeak(times, energies, Where(both)[0])
  {
    var same := EqualMask(times, t);
    var w := Where(same);
    var es := Select(energies, same);
    SelectAtWhere(energies, same);
    ArgMaxOfSelect(energies, same);
    var top := w[ArgMax(es)];
    var mx := es[ArgMax(es)];
    assert energies[top] == mx;
    var both := And(same, EqualMask(energies, mx));
    MaskNonEmpty(both, top);
    WhereFirst(both);
    FirstMaxIsPeak(times, energies, t, mx, Where(both)[0]);
  }

  /** The flags of one group, computed the way the source does: for each
      distinct time, the kept position is set to 1. */
  method HigherEnergyFlags(times: seq<real>, energies: seq<real>) returns (flags: seq<int>)
    requires |times| == |energies|
    ensures flags == PeakFlags(times, energies)
  {
    var uts := FirstOccurrences(times);
    flags := seq(|times|, _ => 0);
    for i := 0 to |uts|
      invariant FlagsSoFar(times, energies, uts[..i], flags)
    {
      var t := uts[i];
      assert t !in uts[..i];
      assert uts[..i + 1] == uts[..i] + [t];
      var same := EqualMask(times, t);
      assert t in times;
      var k0 :| 0 <= k0 < |times| && times[k0] == t;
      MaskNonEmpty(same, k0);
      var idx: nat;
      if CountTrue(same) == 1 {
        KeptAlone(times, energies, t);
        idx := Where(same)[0];
      } else {
        KeptFirstMax(times, energies, t);
        var es := Select(energies, same);
        var mx := es[ArgMax(es)];
        idx := Where(And(same, EqualMask(energies, mx)))[0];
      }
      FlagStep(times, energies, uts[..i], t, idx, flags);
      flags := flags[idx := 1];
    }
    assert uts[..|uts|] == uts;
  }

  // ---------------------------------------------------------------------
  // The whole data set

  /** Detections `i` and `k` share cluster, satellite and time. */
  predicate SameInstant(ids: seq<int>, sats: seq<int>, times: seq<real>, i: nat, k: nat)
    requires |ids| == |sats| == |times| && i < |ids| && k < |ids|
  {
    ids[i] == ids[k] && sats[i] == sats[k] && times[i] == times[k]
  }

  /** Detection `k` is the first one holding the largest energy among the
      detections sharing its cluster, satellite and time. */
  predicate GroupPeak(ids: seq<int>, sats: seq<int>, times: seq<real>, energies: seq<real>, k: nat)
    requires |ids| == |sats| == |times| == |energies| && k < |ids|
  {
    (forall i :: 0 <= i < |ids| && SameInstant(ids, sats, times, i, k) ==> energies[i] <= energies[k]) &&
    (forall i :: 0 <= i < k && SameInstant(ids, sats, times, i, k) ==> energies[i] < energies[k])
  }

  /** The highest-energy flags after `mark_higher_energies`: detections of
      the bad cluster keep their flag, every other detection is flagged 1
      exactly when it is a peak of its cluster, satellite and time. */
  function Highest(ids: seq<int>, sats: seq<int>, times: seq<real>, energies: seq<real>, highest: seq<int>): (r: seq<int>)
    requires |ids| == |sats| == |times| == |energies| == |highest|
    ensures |r| == |ids|
  {
    seq(|ids|, k requires 0 <= k < |ids| =>
      if ids[k] == GlmMarking.BadClusterId then highest[k]
      else if GroupPeak(ids, sats, times, energies, k) then 1 else 0)
  }

  /** Every good detection's instant has exactly one flagged detection, and
      it carries the largest energy of that instant; the flags are 0 or 1. */
  lemma {:induction false} HighestOnePerInstant(ids: seq<int>, sats: seq<int>, times: seq<real>, energies: seq<real>, highest: seq<int>, k: nat)
    requires |ids| == |sats| == |times| == |energies| == |highest| && k < |ids|
    requires ids[k] != GlmMarking.BadClusterId
    ensures var r := Highest(ids, sats, times, energies, highest);
      r[k] == 0 || r[k] == 1
    ensures var r := Highest(ids, sats, times, energies, highest);
      exists i :: 0 <= i < |ids| && SameInstant(ids, sats, times, i, k) && r[i] == 1
    ensures var r := Highest(ids, sats, times, energies, highest);
      forall i, j :: 0 <= i < |ids| && 0 <= j < |ids| && SameInstant(ids, sats, times, i, k) && SameInstant(ids, sats, times, j, k) && r[i] == 1 && r[j] == 1 ==> i == j
    ensures var r := Highest(ids, sats, times, energies, highest);
      r[k] == 1 ==> forall i :: 0 <= i < |ids| && SameInstant(ids, sats, times, i, k) ==> energies[i] <= energies[k]
  {
    var r := Highest(ids, sats, times, energies, highest);
    var m := And(GroupMask(ids, sats, ids[k], sats[k]), EqualMask(times, times[k]));
    MaskNonEmpty(m, k);
    ArgMaxOfSelect(energies, m);
    var top := Where(m)[ArgMax(Select(energies, m))];
    assert GroupPeak(ids, sats, times, energies, top);
    assert SameInstant(ids, sats, times, top, k) && r[top] == 1;
    forall i, j | 0 <= i < |ids| && 0 <= j < |ids| && SameInstant(ids, sats, times, i, k) &&
      SameInstant(ids, sats, times, j, k) && r[i] == 1 && r[j] == 1
      ensures i == j
    {
      assert GroupPeak(ids, sats, times, energies, i) && GroupPeak(ids, sats, times, energies, j);
    }
  }

  /** A group's local peaks are the data set's peaks, read through the
      group's mask. */
  lemma {:induction false} LocalPeak(ids: seq<int>, sats: seq<int>, times: seq<real>, energies: seq<real>, c: int, s: int, a: nat)
    requires |ids| == |sats| == |times| == |energies|
    requires a < CountTrue(GroupMask(ids, sats, c, s))
    ensures var m := GroupMask(ids, sats, c, s);
      IsPeak(Select(times, m), Select(energies, m), a) <==> GroupPeak(ids, sats, times, energies, Where(m)[a])
  {
    var m := GroupMask(ids, sats, c, s);
    if IsPeak(Select(times, m), Select(energies, m), a) {
      LocalPeakIsGroupPeak(ids, sats, times, energies, c, s, a);
    }
    if GroupPeak(ids, sats, times, energies, Where(m)[a]) {
      GroupPeakIsLocalPeak(ids, sats, times, energies, c, s, a);
    }
  }

  lemma LocalPeakIsGroupPeak(ids: seq<int>, sats: seq<int>, times: seq<real>, energies: seq<real>, c: int, s: int, a: nat)
    requires |ids| == |sats| == |times| == |energies|
    requires a < CountTrue(GroupMask(ids, sats, c, s))
    requires var m := GroupMask(ids, sats, c, s); IsPeak(Select(times, m), Select(energies, m), a)
    ensures GroupPeak(ids, sats, times, energies, Where(GroupMask(ids, sats, c, s))[a])
  {
    var m := GroupMask(ids, sats, c, s);
    var w, ts, es := Where(m), Select(times, m), Select(energies, m);
    SelectAtWhere(times, m);
    SelectAtWhere(energies, m);
    WhereOrder(m);
    var k := w[a];
    forall i | 0 <= i < |ids| && SameInstant(ids, sats, times, i, k)
      ensures energies[i] <= energies[k] && (i < k ==> energies[i] < energies[k])
    {
      var b :| 0 <= b < |w| && w[b] == i;
      assert ts[b] == ts[a];
    }
  }

  lemma GroupPeakIsLocalPeak(ids: seq<int>, sats: seq<int>, times: seq<real>, energies: seq<real>, c: int, s: int, a: nat)
    requires |ids| == |sats| == |times| == |energies|
    requires a < CountTrue(GroupMask(ids, sats, c, s))
    requires GroupPeak(ids, sats, times, energies, Where(GroupMask(ids, sats, c, s))[a])
    ensures var m := GroupMask(ids, sats, c, s); IsPeak(Select(times, m), Select(energies, m), a)
  {
    var m := GroupMask(ids, sats, c, s);
    var w, ts, es := Where(m), Select(times, m), Select(energies, m);
    SelectAtWhere(times, m);
    SelectAtWhere(energies, m);
    WhereOrder(m);
    var k := w[a];
    forall b | 0 <= b < |ts| && ts[b] == ts[a]
      ensures es[b] <= es[a] && (b < a ==> es[b] < es[a])
    {
      assert SameInstant(ids, sats, times, w[b], k);
    }
  }

  /** Writing a group's flags back through its mask sets each member to its
      data-set-wide flag. */
  lemma {:induction false} GroupWrite(ids: seq<int>, sats: seq<int>, times: seq<real>, energies: seq<real>, c: int, s: int, r: seq<int>)
    requires |ids| == |sats| == |times| == |energies| == |r|
    ensures var m := GroupMask(ids, sats, c, s);
      var r2 := Scatter(r, m, PeakFlags(Select(times, m), Select(energies, m)));
      forall k :: 0 <= k < |ids| && m[k] ==> r2[k] == if GroupPeak(ids, sats, times, energies, k) then 1 else 0
  {
    var m := GroupMask(ids, sats, c, s);
    var f := PeakFlags(Select(times, m), Select(energies, m));
    var r2 := Scatter(r, m, f);
    var w := Where(m);
    forall k | 0 <= k < |ids| && m[k]
      ensures r2[k] == if GroupPeak(ids, sats, times, energies, k) then 1 else 0
    {
      var a :| 0 <= a < |w| && w[a] == k;
      LocalPeak(ids, sats, times, energies, c, s, a);
      assert r2[w[a]] == f[a];
    }
  }

  /** The flags after the clusters in `doneC`, and the satellites in
      `doneS` of cluster `c`, have been visited. */
  predicate SoFar(ids: seq<int>, sats: seq<int>, spec: seq<int>, base: seq<int>, doneC: seq<int>, c: int, doneS: seq<int>, r: seq<int>)
    requires |ids| == |sats| == |spec| == |base|
  {
    |r| == |ids| &&
    forall k :: 0 <= k < |ids| ==>
      r[k] == if ids[k] in doneC || (ids[k] == c && sats[k] in doneS) then spec[k] else base[k]
  }

  lemma {:induction false} SatStep(ids: seq<int>, sats: seq<int>, spec: seq<int>, base: seq<int>, doneC: seq<int>, c: int, doneS: seq<int>, s: int, r: seq<int>, r2: seq<int>)
    requires |ids| == |sats| == |spec| == |base| && SoFar(ids, sats, spec, base, doneC, c, doneS, r)
    requires |r2| == |ids|
    requires forall k :: 0 <= k < |ids| ==> r2[k] == if ids[k] == c && sats[k] == s then spec[k] else r[k]
    ensures SoFar(ids, sats, spec, base, doneC, c, doneS + [s], r2)
  {
    forall k | 0 <= k < |ids|
      ensures sats[k] in doneS + [s] <==> sats[k] in doneS || sats[k] == s
    {
      assert sats[k] in doneS + [s] <==> sats[k] in doneS || sats[k] in [s];
    }
  }

  lemma {:induction false} ClusterStep(ids: seq<int>, sats: seq<int>, spec: seq<int>, base: seq<int>, doneC: seq<int>, c: int, vs: seq<int>, r: seq<int>, c2: int)
    requires |ids| == |sats| == |spec| == |base| && SoFar(ids, sats, spec, base, doneC, c, vs, r)
    requires forall k :: 0 <= k < |ids| ==> sats[k] in vs
    ensures SoFar(ids, sats, spec, base, doneC + [c], c2, [], r)
  {
    forall k | 0 <= k < |ids|
      ensures ids[k] in doneC + [c] <==> ids[k] in doneC || ids[k] == c
    {
      assert ids[k] in doneC + [c] <==> ids[k] in doneC || ids[k] in [c];
    }
  }

  lemma {:induction false} SkipCluster(ids: seq<int>, sats: seq<int>, spec: seq<int>, base: seq<int>, doneC: seq<int>, c: int, r: seq<int>, c2: int)
    requires |ids| == |sats| == |spec| == |base| && SoFar(ids, sats, spec, base, doneC, c, [], r)
    requires forall k :: 0 <= k < |ids| && ids[k] == c ==> spec[k] == base[k]
    ensures SoFar(ids, sats, spec, base, doneC + [c], c2, [], r)
  {
    forall k | 0 <= k < |ids|
      ensures ids[k] in doneC + [c] <==> ids[k] in doneC || ids[k] == c
    {
      assert ids[k] in doneC + [c] <==> ids[k] in doneC || ids[k] in [c];
    }
  }

  /** The satellite loop of one good cluster. */
  method MarkClusterPeaks(ids: seq<int>, sats: seq<int>, times: seq<real>, energies: seq<real>, highest: seq<int>,
                          ghost doneC: seq<int>, c: int, r0: seq<int>) returns (r: seq<int>)
    requires |ids| == |sats| == |times| == |energies| == |highest| && c != GlmMarking.BadClusterId
    requires SoFar(ids, sats, Highest(ids, sats, times, energies, highest), highest, doneC, c, [], r0)
    ensures SoFar(ids, sats, Highest(ids, sats, times, energies, highest), highest, doneC, c, Unique(sats), r)
  {
    ghost var spec := Highest(ids, sats, times, energies, highest);
    var vs := Unique(sats);
    r := r0;
    for j := 0 to |vs|
      invariant SoFar(ids, sats, spec, highest, doneC, c, vs[..j], r)
    {
      var s := vs[j];
      assert vs[..j + 1] == vs[..j] + [s];
      var m := GroupMask(ids, sats, c, s);
      var r2 := r;
      if CountTrue(m) == 0 {
        MaskEmpty(m);
      } else {
        var flags := HigherEnergyFlags(Select(times, m), Select(energies, m));
        GroupWrite(ids, sats, times, energies, c, s, r);
        r2 := Scatter(r, m, flags);
      }
      SatStep(ids, sats, spec, highest, doneC, c, vs[..j], s, r, r2);
      r := r2;
    }
    assert vs[..|vs|] == vs;
  }

  /** `mark_higher_energies`. */
  method MarkHigherEnergies(ids: seq<int>, sats: seq<int>, times: seq<real>, energies: seq<real>, highest: seq<int>)
    returns (r: seq<int>)
    requires |ids| == |sats| == |times| == |energies| == |highest|
    ensures r == Highest(ids, sats, times, energies, highest)
  {
    ghost var spec := Highest(ids, sats, times, energies, highest);
    var us := Unique(ids);
    r := highest;
    for i := 0 to |us|
      invariant SoFar(ids, sats, spec, highest, us[..i], 0, [], r)
    {
      var c := us[i];
      assert us[..i + 1] == us[..i] + [c];
      if c == GlmMarking.BadClusterId {
        SkipCluster(ids, sats, spec, highest, us[..i], c, r, 0);
      } else {
        r := MarkClusterPeaks(ids, sats, times, energies, highest, us[..i], c, r);
        ClusterStep(ids, sats, spec, highest, us[..i], c, Unique(sats), r, 0);
      }
    }
    assert us[..|us|] == us;
  }
}
