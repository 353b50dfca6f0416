/** The numeric helpers of the trigger generator: the binomial coefficient,
    the energy drop filter and the longest run above a threshold. */
module MathHelpers {
  import opened RealMath

  // ---------------------------------------------------------------------
  // comb

  /** The binomial coefficient, by Pascal's rule. */
  function Binomial(n: nat, k: nat): nat
  {
    if k == 0 then 1
    else if n == 0 then 0
    else Binomial(n - 1, k - 1) + Binomial(n - 1, k)
  }

  function Fact(k: nat): (r: nat)
    ensures r >= 1
  {
    if k == 0 then 1 else MulPosInt(k, Fact(k - 1)); k * Fact(k - 1)
  }

  lemma MulPosInt(a: int, b: int)
    requires a >= 1 && b >= 1
    ensures a * b >= 1
  {
  }

  /** n (n - 1) ... (n - k + 1), the numerator of the multiplicative formula. */
  function Falling(n: nat, k: nat): int
  {
    if k == 0 then 1 else Falling(n, k - 1) * (n - k + 1)
  }

  lemma {:induction false} FallingShift(n: nat, k: nat)
    requires n >= 1 && k >= 1
    ensures Falling(n, k) == n * Falling(n - 1, k - 1)
  {
    if k > 1 {
      FallingShift(n, k - 1);
      calc {
        Falling(n, k);
        Falling(n, k - 1) * (n - k + 1);
        n * Falling(n - 1, k - 2) * (n - k + 1);
        n * (Falling(n - 1, k - 2) * ((n - 1) - (k - 1) + 1));
        n * Falling(n - 1, k - 1);
      }
    }
  }

  lemma {:induction false} FallingOfZero(k: nat)
    requires k >= 1
    ensures Falling(0, k) == 0
  {
    if k > 1 { FallingOfZero(k - 1); }
  }

  /** The Pascal coefficient agrees with the multiplicative formula: C(n, k) k! = n (n - 1) ... (n - k + 1). */
  lemma {:induction false} BinomialTimesFact(n: nat, k: nat)
    ensures Binomial(n, k) * Fact(k) == Falling(n, k)
  {
    if k == 0 {
    } else if n == 0 {
      FallingOfZero(k);
    } else {
      BinomialTimesFact(n - 1, k - 1);
      BinomialTimesFact(n - 1, k);
      FallingShift(n, k);
      PascalTimesFact(Binomial(n - 1, k - 1), Binomial(n - 1, k), Fact(k - 1), Falling(n - 1, k - 1), n, k);
    }
  }

  /** The arithmetic of one Pascal step: if a (k-1)! = f and b k! = f (n - k), then (a + b) k! = n f. */
  lemma PascalTimesFact(a: int, b: int, g: int, f: int, n: int, k: int)
    requires a * g == f && b * (k * g) == f * (n - k)
    ensures (a + b) * (k * g) == n * f
  {
    assert a * (k * g) == k * (a * g);
    assert (a + b) * (k * g) == a * (k * g) + b * (k * g);
    assert k * f + f * (n - k) == n * f;
  }

  /** One step of the multiplicative formula is exact: C(n, i) (n - i) = C(n, i + 1) (i + 1). */
  lemma BinomialStep(n: nat, i: nat)
    requires i < n
    ensures Binomial(n, i) * (n - i) == Binomial(n, i + 1) * (i + 1)
  {
    BinomialTimesFact(n, i);
    BinomialTimesFact(n, i + 1);
    StepCancel(Binomial(n, i), Binomial(n, i + 1), Fact(i), Falling(n, i), n, i);
  }

  lemma StepCancel(c: int, d: int, g: int, f: int, n: int, i: int)
    requires g >= 1 && c * g == f && d * ((i + 1) * g) == f * (n - i)
    ensures c * (n - i) == d * (i + 1)
  {
    assert d * ((i + 1) * g) == (d * (i + 1)) * g;
    assert f * (n - i) == (c * (n - i)) * g;
    CancelIntFactor(d * (i + 1), c * (n - i), g);
  }

  lemma MulLess(a: int, b: int, m: int)
    requires a < b && m >= 1
    ensures a * m < b * m
  {
    MulPosInt(b - a, m);
    assert (b - a) * m == b * m - a * m;
  }

  lemma CancelIntFactor(a: int, b: int, m: int)
    requires m >= 1 && a * m == b * m
    ensures a == b
  {
    if a < b { MulLess(a, b, m); }
    if b < a { MulLess(b, a, m); }
  }

  lemma {:induction false} BinomialAbove(n: nat, k: nat)
    requires k > n
    ensures Binomial(n, k) == 0
  {
    if n > 0 {
      BinomialAbove(n - 1, k - 1);
      BinomialAbove(n - 1, k);
    }
  }

  lemma {:induction false} BinomialDiagonal(n: nat)
    ensures Binomial(n, n) == 1
  {
    if n > 0 {
      BinomialDiagonal(n - 1);
      BinomialAbove(n - 1, n);
    }
  }

  /** The symmetry the loop bound relies on: C(n, k) = C(n, n - k). */
  lemma {:induction false} BinomialSymmetry(n: nat, k: nat)
    requires k <= n
    ensures Binomial(n, k) == Binomial(n, n - k)
  {
    if k == 0 {
      BinomialDiagonal(n);
    } else if k == n {
      BinomialDiagonal(n);
    } else {
      BinomialSymmetry(n - 1, k - 1);
      BinomialSymmetry(n - 1, k);
      assert Binomial(n, n - k) == Binomial(n - 1, n - k - 1) + Binomial(n - 1, n - k);
    }
  }

  /** `comb(n, k)`: zero outside 0 <= k <= n, otherwise the binomial coefficient,
      computed by the multiplicative formula up to min(k, n - k). */
  method Comb(n: int, k: int) returns (r: int)
    ensures k < 0 || k > n ==> r == 0
    ensures 0 <= k <= n ==> r == Binomial(n, k)
    ensures 0 <= k <= n && (k == 0 || k == n) ==> r == 1
  {
    if k < 0 || k > n {
      return 0;
    }
    if k == 0 || k == n {
      BinomialDiagonal(n);
      return 1;
    }
    var m := if k <= n - k then k else n - k;
    r := 1;
    for i := 0 to m
      invariant r == Binomial(n, i)
    {
      BinomialStep(n, i);
      DivExact(r * (n - i), i + 1, Binomial(n, i + 1));
      r := r * (n - i) / (i + 1);
    }
    BinomialSymmetry(n, k);
    assert Binomial(n, m) == Binomial(n, k);
  }

  lemma DivExact(a: int, d: int, q: int)
    requires d >= 1 && a == q * d
    ensures a / d == q
  {
    var r, rm := a / d, a % d;
    assert d * r + rm == q * d;
    assert d * (r - q) == d * r - q * d;
    MultipleInRange(d, r - q, rm);
  }

  lemma MultipleInRange(d: int, x: int, rm: int)
    requires d >= 1 && 0 <= rm < d && d * x == -rm
    ensures x == 0
  {
    if x > 0 { MulLess(0, x, d); }
    if x < 0 { MulLess(x, 0, d); MulLess(x + 1, 1, d); }
  }

  // ---------------------------------------------------------------------
  // energy_filter

  /** The index visited at step `j` of a traversal from `first` in direction `up`. */
  function At(first: int, up: bool, j: int): int
  {
    if up then first + j else first - j
  }

  function SeqMax(s: seq<real>): (r: real)
    requires |s| > 0
    ensures forall i :: 0 <= i < |s| ==> s[i] <= r
    ensures exists i :: 0 <= i < |s| && s[i] == r
  {
    if |s| == 1 then s[0]
    else
      var m := SeqMax(s[..|s| - 1]);
      if s[|s| - 1] > m then s[|s| - 1] else m
  }

  function SeqMin(s: seq<real>): (r: real)
    requires |s| > 0
    ensures forall i :: 0 <= i < |s| ==> r <= s[i]
    ensures exists i :: 0 <= i < |s| && s[i] == r
  {
    if |s| == 1 then s[0]
    else
      var m := SeqMin(s[..|s| - 1]);
      if s[|s| - 1] < m then s[|s| - 1] else m
  }

  /** The energies of the first `count` points of the traversal (numpy `energy[range(...)]`). */
  function Window(e: seq<real>, first: int, up: bool, count: nat): (w: seq<real>)
    requires count >= 1 && InBounds(|e|, first, up, count - 1)
    ensures |w| == count
    ensures forall j :: 0 <= j < count ==> w[j] == e[At(first, up, j)]
  {
    seq(count, j requires 0 <= j < count => e[At(first, up, j)])
  }

  /** All steps 0..steps of the traversal stay inside the array. */
  predicate InBounds(n: int, first: int, up: bool, steps: int)
  {
    forall j :: 0 <= j <= steps ==> 0 <= At(first, up, j) < n
  }

  /** `p` is one of the points visited at steps 1..steps (the start point excluded). */
  predicate Visited(first: int, up: bool, steps: int, p: int)
  {
    if up then first < p <= first + steps else first - steps <= p < first
  }

  /** Step `i` is the last accepted step before step `j`, and the point at `j` lies strictly below it. */
  ghost predicate NearestAccepted(e: seq<real>, fit: seq<int>, first: int, up: bool, i: int, j: int)
    requires |fit| == |e| && 0 <= i < j && InBounds(|e|, first, up, j)
  {
    fit[At(first, up, i)] == 1
    && (forall m :: i < m < j ==> fit[At(first, up, m)] == 0)
    && e[At(first, up, j)] < e[At(first, up, i)]
  }

  /** Every flagged point of steps 1..steps is a drop from the nearest accepted point before it. */
  ghost predicate FlagsAreDrops(e: seq<real>, fit: seq<int>, first: int, up: bool, steps: nat)
    requires |fit| == |e| && InBounds(|e|, first, up, steps)
  {
    steps == 0 ||
    (FlagsAreDrops(e, fit, first, up, steps - 1)
     && (fit[At(first, up, steps)] == 0 ==> exists i :: 0 <= i < steps && NearestAccepted(e, fit, first, up, i, steps)))
  }

  /** Clearing a point that no step up to `steps` visits leaves the flags of those steps explained. */
  lemma {:induction false} FlagsAreDropsFrame(e: seq<real>, fit: seq<int>, first: int, up: bool, steps: nat, p: int)
    requires |fit| == |e| && InBounds(|e|, first, up, steps) && 0 <= p < |e|
    requires forall m :: 0 <= m <= steps ==> At(first, up, m) != p
    requires FlagsAreDrops(e, fit, first, up, steps)
    ensures FlagsAreDrops(e, fit[p := 0], first, up, steps)
  {
    if steps > 0 {
      FlagsAreDropsFrame(e, fit, first, up, steps - 1, p);
      var f := fit[p := 0];
      if f[At(first, up, steps)] == 0 {
        var i :| 0 <= i < steps && NearestAccepted(e, fit, first, up, i, steps);
        assert NearestAccepted(e, f, first, up, i, steps);
      }
    }
  }

  /** Flagging the point at step `j`, a drop from the last accepted step `lc`, keeps every flag explained. */
  lemma {:induction false} FlagKeepsDrops(e: seq<real>, fit: seq<int>, first: int, up: bool, lc: nat, j: nat)
    requires |fit| == |e| && lc < j && InBounds(|e|, first, up, j)
    requires FlagsAreDrops(e, fit, first, up, j - 1)
    requires fit[At(first, up, lc)] == 1
    requires forall m :: lc < m < j ==> fit[At(first, up, m)] == 0
    requires e[At(first, up, j)] < e[At(first, up, lc)]
    ensures FlagsAreDrops(e, fit[At(first, up, j) := 0], first, up, j)
  {
    var p := At(first, up, j);
    FlagsAreDropsFrame(e, fit, first, up, j - 1, p);
    assert NearestAccepted(e, fit[p := 0], first, up, lc, j);
  }

  /** Every flag is 0 or 1, and only points visited at steps 1..steps are cleared. */
  predicate FlagsShape(fit: seq<int>, first: int, up: bool, steps: int)
  {
    forall p :: 0 <= p < |fit| ==> (fit[p] == 0 || fit[p] == 1) && (fit[p] == 0 ==> Visited(first, up, steps, p))
  }

  /** Clearing the point at step `j` keeps the flags 0 or 1 and clears only visited points;
      the steps after `lc` stay cleared and the step `lc` stays accepted. */
  lemma FlagKeepsShape(fit: seq<int>, first: int, up: bool, lc: nat, j: nat)
    requires lc < j && 0 <= At(first, up, j) < |fit| && 0 <= At(first, up, lc) < |fit|
    requires FlagsShape(fit, first, up, j - 1)
    requires fit[At(first, up, lc)] == 1
    requires forall m :: lc < m < j ==> 0 <= At(first, up, m) < |fit| && fit[At(first, up, m)] == 0
    ensures FlagsShape(fit[At(first, up, j) := 0], first, up, j)
    ensures fit[At(first, up, j) := 0][At(first, up, lc)] == 1
    ensures forall m :: lc < m < j + 1 ==> fit[At(first, up, j) := 0][At(first, up, m)] == 0
  {
  }

  /** Leaving the point at step `j` alone keeps the flags 0 or 1 and clears only visited points. */
  lemma AcceptKeepsShape(fit: seq<int>, first: int, up: bool, j: nat)
    requires FlagsShape(fit, first, up, j - 1)
    ensures FlagsShape(fit, first, up, j)
  {
  }

  /** Leaving the point at step `j` accepted keeps every flag explained. */
  lemma AcceptKeepsDrops(e: seq<real>, fit: seq<int>, first: int, up: bool, j: nat)
    requires |fit| == |e| && 0 < j && InBounds(|e|, first, up, j)
    requires FlagsAreDrops(e, fit, first, up, j - 1)
    requires fit[At(first, up, j)] == 1
    ensures FlagsAreDrops(e, fit, first, up, j)
  {
  }

  /** The running step estimate after an accepted point: the weighted mean of the old
      estimate and the new step, never below 1e-15. */
  function Smoothed(width: int, lastDiff: real, step: real): (r: real)
    requires width >= 1
    ensures r >= 0.000000000000001
  {
    Max(((width - 1) as real * lastDiff + step) / width as real, 0.000000000000001)
  }

  /** `n` flags, all 1: every point starts out good. */
  function Ones(n: nat): (r: seq<int>)
    ensures |r| == n && forall i :: 0 <= i < n ==> r[i] == 1
  {
    seq(n, _ => 1)
  }

  /** The loop state of `energy_filter`: the step of the point checked last, the running
      step estimate `last_diff`, and the flags. */
  datatype FilterState = FilterState(checked: nat, lastDiff: real, fit: seq<int>)

  /** The drop test of `energy_filter`: the step `delta` from the point checked last is a
      fall of more than `maxDrop` times the estimate. */
  predicate Rejected(delta: real, maxDrop: real, lastDiff: real)
  {
    delta < 0.0 && -delta > maxDrop * lastDiff
  }

  /** The loop state after steps 1..j, from the initial estimate `lastDiff0` and all flags 1.
      A rejected point is cleared and the checked point stays; the estimate doubles when the
      rejected point lies more than `width` steps past the checked one. An accepted point
      becomes the checked one and its step is smoothed into the estimate. The checked step
      is one of the steps taken. */
  function FilterRun(e: seq<real>, first: int, up: bool, width: int, maxDrop: real, lastDiff0: real, j: nat): (st: FilterState)
    requires width >= 1 && InBounds(|e|, first, up, j)
    ensures st.checked <= j && |st.fit| == |e|
  {
    if j == 0 then FilterState(0, lastDiff0, Ones(|e|))
    else
      var st := FilterRun(e, first, up, width, maxDrop, lastDiff0, j - 1);
      var p := At(first, up, j);
      var delta := e[p] - e[At(first, up, st.checked)];
      if Rejected(delta, maxDrop, st.lastDiff) then
        FilterState(st.checked, if j - st.checked > width then st.lastDiff * 2.0 else st.lastDiff, st.fit[p := 0])
      else
        FilterState(j, Smoothed(width, st.lastDiff, Abs(delta)), st.fit)
  }

  /** The initial estimate: the spread (largest less smallest) of the first `width` points of
      the walk, or of all of them when there are fewer. It is never negative. */
  function FirstDiff(e: seq<real>, first: int, up: bool, steps: nat, width: int): (d: real)
    requires width >= 1 && InBounds(|e|, first, up, steps)
    ensures d >= 0.0
  {
    var count := if steps + 1 < width then steps + 1 else width;
    var w := Window(e, first, up, count);
    assert SeqMin(w) <= w[0] <= SeqMax(w);
    SeqMax(w) - SeqMin(w)
  }

  /** The number of steps from `first` to `last`. */
  function Steps(first: int, last: int): nat
  {
    if first < last then last - first else first - last
  }

  /** The walk from `first` to `last` stays inside the array. */
  lemma WalkInBounds(n: int, first: int, last: int)
    requires 0 <= first < n && 0 <= last < n
    ensures InBounds(n, first, first < last, Steps(first, last))
  {
  }

  /** The flags `energy_filter` returns: `[1]` for a single point, and otherwise the flags
      of the walk from `first` to `last`, one per point of the array. */
  function EnergyFilterFlags(e: seq<real>, first: int, last: int, width: int, maxDrop: real): (fit: seq<int>)
    requires 0 <= first < |e| && 0 <= last < |e| && width >= 1
    ensures |fit| == if first == last then 1 else |e|
  {
    if first == last then [1]
    else
      var up, steps := first < last, Steps(first, last);
      WalkInBounds(|e|, first, last);
      FilterRun(e, first, up, width, maxDrop, FirstDiff(e, first, up, steps, width), steps).fit
  }

  /** A step of the walk that comes after step `k` still has its initial flag 1 after step `k`. */
  lemma {:induction false} FilterAhead(e: seq<real>, first: int, up: bool, width: int, maxDrop: real, lastDiff0: real,
                                       k: nat, j: nat)
    requires width >= 1 && k < j && InBounds(|e|, first, up, j)
    ensures FilterRun(e, first, up, width, maxDrop, lastDiff0, k).fit[At(first, up, j)] == 1
  {
    if k > 0 {
      FilterAhead(e, first, up, width, maxDrop, lastDiff0, k - 1, j);
    }
  }

  /** The steps after step `j` leave the flag of its point as step `j` set it. */
  lemma {:induction false} FilterBehind(e: seq<real>, first: int, up: bool, width: int, maxDrop: real, lastDiff0: real,
                                        j: nat, k: nat)
    requires width >= 1 && j <= k && InBounds(|e|, first, up, k)
    ensures FilterRun(e, first, up, width, maxDrop, lastDiff0, k).fit[At(first, up, j)]
         == FilterRun(e, first, up, width, maxDrop, lastDiff0, j).fit[At(first, up, j)]
  {
    if k > j {
      FilterBehind(e, first, up, width, maxDrop, lastDiff0, j, k - 1);
    }
  }

  /** The threshold of `energy_filter`: after the whole walk, the point of step `j` is
      flagged 0 exactly when it falls from the point checked last before step `j` by more
      than `maxDrop` times the estimate at that moment, and 1 otherwise. */
  lemma {:induction false} FilterThreshold(e: seq<real>, first: int, up: bool, width: int, maxDrop: real, lastDiff0: real,
                                           steps: nat, j: nat)
    requires width >= 1 && 1 <= j <= steps && InBounds(|e|, first, up, steps)
    ensures var before := FilterRun(e, first, up, width, maxDrop, lastDiff0, j - 1);
      var fit := FilterRun(e, first, up, width, maxDrop, lastDiff0, steps).fit;
      (fit[At(first, up, j)] == 0 <==> Rejected(e[At(first, up, j)] - e[At(first, up, before.checked)], maxDrop, before.lastDiff))
      && (fit[At(first, up, j)] == 0 || fit[At(first, up, j)] == 1)
  {
    FilterAhead(e, first, up, width, maxDrop, lastDiff0, j - 1, j);
    FilterBehind(e, first, up, width, maxDrop, lastDiff0, j, steps);
  }

  /** The threshold of `energy_filter` stated on its result: walking from `first` to `last`,
      the point `j` steps along is flagged 0 exactly when it falls from the point checked
      last before it by more than `maxDrop` times the running estimate. */
  lemma {:induction false} EnergyFilterThreshold(e: seq<real>, first: int, last: int, width: int, maxDrop: real, j: nat)
    requires 0 <= first < |e| && 0 <= last < |e| && width >= 1
    requires first != last && 1 <= j <= Steps(first, last)
    ensures var up, steps := first < last, Steps(first, last);
      InBounds(|e|, first, up, steps) &&
      var before := FilterRun(e, first, up, width, maxDrop, FirstDiff(e, first, up, steps, width), j - 1);
      (EnergyFilterFlags(e, first, last, width, maxDrop)[At(first, up, j)] == 0
       <==> Rejected(e[At(first, up, j)] - e[At(first, up, before.checked)], maxDrop, before.lastDiff))
  {
    var up, steps := first < last, Steps(first, last);
    WalkInBounds(|e|, first, last);
    FilterThreshold(e, first, up, width, maxDrop, FirstDiff(e, first, up, steps, width), steps, j);
  }

  /** `energy_filter`: walks from `first` to `last` (either direction), keeping a running
      estimate of the typical step, and flags a point whose drop from the last accepted
      point exceeds `maxDrop` times that estimate. */
  method EnergyFilter(e: seq<real>, first: int, last: int, width: int, maxDrop: real)
    returns (fit: seq<int>)
    requires 0 <= first < |e| && 0 <= last < |e|
    requires width >= 1
    ensures fit == EnergyFilterFlags(e, first, last, width, maxDrop)
    ensures first == last ==> fit == [1]
    ensures first != last ==> |fit| == |e|
    ensures forall p :: 0 <= p < |fit| ==> fit[p] == 0 || fit[p] == 1
    ensures first != last ==> fit[first] == 1
    ensures first != last ==> forall p :: 0 <= p < |e| && !(first <= p <= last || last <= p <= first) ==> fit[p] == 1
    ensures first != last ==>
      var up := first < last;
      var steps := Steps(first, last);
      InBounds(|e|, first, up, steps) && FlagsAreDrops(e, fit, first, up, steps)
  {
    if first == last {
      return [1];
    }
    var up := first < last;
    var steps := Steps(first, last);
    WalkInBounds(|e|, first, last);
    var count := if steps + 1 < width then steps + 1 else width;
    var w := Window(e, first, up, count);
    var lastDiff := SeqMax(w) - SeqMin(w);
    assert lastDiff == FirstDiff(e, first, up, steps, width);
    fit := Walk(e, first, up, steps, width, maxDrop, lastDiff);
  }

  /** One step of the walk, from the state after the step before. */
  lemma FilterRunNext(e: seq<real>, first: int, up: bool, width: int, maxDrop: real, lastDiff0: real,
                      j: nat, lc: nat, lastDiff: real, fit: seq<int>)
    requires width >= 1 && j >= 1 && InBounds(|e|, first, up, j)
    requires FilterRun(e, first, up, width, maxDrop, lastDiff0, j - 1) == FilterState(lc, lastDiff, fit)
    ensures lc < j && |fit| == |e|
    ensures var delta := e[At(first, up, j)] - e[At(first, up, lc)];
      FilterRun(e, first, up, width, maxDrop, lastDiff0, j)
      == if Rejected(delta, maxDrop, lastDiff)
         then FilterState(lc, if j - lc > width then lastDiff * 2.0 else lastDiff, fit[At(first, up, j) := 0])
         else FilterState(j, Smoothed(width, lastDiff, Abs(delta)), fit)
  {
  }

  /** What the loop of `energy_filter` knows after step `j`: its variables are the state of
      `FilterRun`, every flag is 0 or 1 and 0 only at a visited point, the step last checked
      is accepted and every step after it cleared, and each 0 is a drop from the nearest
      accepted point before it. */
  ghost predicate WalkState(e: seq<real>, first: int, up: bool, width: int, maxDrop: real, lastDiff0: real,
                            j: nat, lc: nat, lastDiff: real, fit: seq<int>)
  {
    width >= 1 && InBounds(|e|, first, up, j) && lc <= j && |fit| == |e|
    && FilterRun(e, first, up, width, maxDrop, lastDiff0, j) == FilterState(lc, lastDiff, fit)
    && FlagsShape(fit, first, up, j)
    && fit[At(first, up, lc)] == 1
    && (forall m :: lc < m <= j ==> fit[At(first, up, m)] == 0)
    && FlagsAreDrops(e, fit, first, up, j)
  }

  /** A rejected point: clearing it, and doubling the estimate when it lies more than
      `width` steps past the checked one, moves the loop on by one step. */
  lemma RejectStep(e: seq<real>, first: int, up: bool, width: int, maxDrop: real, lastDiff0: real,
                   j: nat, lc: nat, lastDiff: real, fit: seq<int>)
    requires j >= 1 && InBounds(|e|, first, up, j)
    requires WalkState(e, first, up, width, maxDrop, lastDiff0, j - 1, lc, lastDiff, fit)
    requires Rejected(e[At(first, up, j)] - e[At(first, up, lc)], maxDrop, lastDiff)
    ensures WalkState(e, first, up, width, maxDrop, lastDiff0, j, lc,
                      if j - lc > width then lastDiff * 2.0 else lastDiff, fit[At(first, up, j) := 0])
  {
    FilterRunNext(e, first, up, width, maxDrop, lastDiff0, j, lc, lastDiff, fit);
    FlagKeepsDrops(e, fit, first, up, lc, j);
    FlagKeepsShape(fit, first, up, lc, j);
  }

  /** An accepted point: making it the checked one and smoothing its step into the
      estimate moves the loop on by one step. */
  lemma AcceptStep(e: seq<real>, first: int, up: bool, width: int, maxDrop: real, lastDiff0: real,
                   j: nat, lc: nat, lastDiff: real, fit: seq<int>)
    requires j >= 1 && InBounds(|e|, first, up, j)
    requires WalkState(e, first, up, width, maxDrop, lastDiff0, j - 1, lc, lastDiff, fit)
    requires !Rejected(e[At(first, up, j)] - e[At(first, up, lc)], maxDrop, lastDiff)
    ensures WalkState(e, first, up, width, maxDrop, lastDiff0, j, j,
                      Smoothed(width, lastDiff, Abs(e[At(first, up, j)] - e[At(first, up, lc)])), fit)
  {
    FilterRunNext(e, first, up, width, maxDrop, lastDiff0, j, lc, lastDiff, fit);
    assert lc < j && fit[At(first, up, j)] == 1;
    AcceptKeepsDrops(e, fit, first, up, j);
    AcceptKeepsShape(fit, first, up, j);
  }

  /** One pass of the loop of `energy_filter`: the point `j` steps from the start is
      cleared when it drops too far below the checked point, otherwise it becomes the
      checked point and its step is smoothed into the estimate. */
  method WalkStep(e: seq<real>, first: int, up: bool, width: int, maxDrop: real, lastDiff0: real,
                  j: nat, lc: nat, lastDiff: real, fit: seq<int>)
    returns (lc': nat, lastDiff': real, fit': seq<int>)
    requires j >= 1 && InBounds(|e|, first, up, j)
    requires WalkState(e, first, up, width, maxDrop, lastDiff0, j - 1, lc, lastDiff, fit)
    ensures WalkState(e, first, up, width, maxDrop, lastDiff0, j, lc', lastDiff', fit')
  {
    var p := At(first, up, j);
    var delta := e[p] - e[At(first, up, lc)];
    if Rejected(delta, maxDrop, lastDiff) {
      RejectStep(e, first, up, width, maxDrop, lastDiff0, j, lc, lastDiff, fit);
      lc' := lc;
      lastDiff' := if j - lc > width then lastDiff * 2.0 else lastDiff;
      fit' := fit[p := 0];
    } else {
      AcceptStep(e, first, up, width, maxDrop, lastDiff0, j, lc, lastDiff, fit);
      lc' := j;
      lastDiff' := Smoothed(width, lastDiff, Abs(delta));
      fit' := fit;
    }
  }

  /** The main loop of `energy_filter`, from the initial step estimate on: its flags are
      those of `FilterRun`, each 0 or 1, 0 only at visited points, and each 0 a drop from
      the nearest accepted point before it. */
  method Walk(e: seq<real>, first: int, up: bool, steps: nat, width: int, maxDrop: real, lastDiff0: real)
    returns (fit: seq<int>)
    requires steps >= 1 && InBounds(|e|, first, up, steps)
    requires width >= 1 && lastDiff0 >= 0.0
    ensures fit == FilterRun(e, first, up, width, maxDrop, lastDiff0, steps).fit
    ensures |fit| == |e|
    ensures FlagsShape(fit, first, up, steps)
    ensures FlagsAreDrops(e, fit, first, up, steps)
  {
    var lastDiff := lastDiff0;
    fit := Ones(|e|);
    var lc := 0;
    var j := 1;
    while j <= steps
      invariant 1 <= j <= steps + 1
      invariant WalkState(e, first, up, width, maxDrop, lastDiff0, j - 1, lc, lastDiff, fit)
    {
      lc, lastDiff, fit := WalkStep(e, first, up, width, maxDrop, lastDiff0, j, lc, lastDiff, fit);
      j := j + 1;
    }
  }

  // ---------------------------------------------------------------------
  // continuous_above_min

  function CountAbove(s: seq<real>, thr: real): (r: nat)
    ensures r <= |s|
  {
    if s == [] then 0 else CountAbove(s[..|s| - 1], thr) + (if s[|s| - 1] > thr then 1 else 0)
  }

  /** The number of consecutive values above the threshold at the end of `s`. */
  function TailRun(s: seq<real>, thr: real): (r: nat)
    ensures r <= |s|
  {
    if s == [] || !(s[|s| - 1] > thr) then 0 else TailRun(s[..|s| - 1], thr) + 1
  }

  /** The longest stretch of consecutive values above the threshold. */
  function LongestRun(s: seq<real>, thr: real): (r: nat)
    ensures r <= |s|
  {
    if s == [] then 0
    else
      var p := LongestRun(s[..|s| - 1], thr);
      var t := TailRun(s, thr);
      if t > p then t else p
  }

  lemma {:induction false} TailRunBelowCount(s: seq<real>, thr: real)
    ensures TailRun(s, thr) <= CountAbove(s, thr)
  {
    if s != [] { TailRunBelowCount(s[..|s| - 1], thr); }
  }

  /** The three counters of `continuous_above_min`: the best run so far, the current run and
      the mistakes counted since the run last started over. */
  datatype RunCounters = RunCounters(best: nat, cur: nat, mistakes: nat)

  /** The counters after the values of `s`, taken in order: a value above the threshold
      extends the current run and, past it, the best one; a value at or below it is counted
      as a mistake while no more than `maxMistakes` are counted, and otherwise the run and
      the mistake count start over from 0. The current run never exceeds the best. */
  function AboveMinCounters(s: seq<real>, thr: real, maxMistakes: int): (r: RunCounters)
    ensures r.cur <= r.best
  {
    if s == [] then RunCounters(0, 0, 0)
    else
      var c := AboveMinCounters(s[..|s| - 1], thr, maxMistakes);
      if s[|s| - 1] > thr then RunCounters(if c.cur + 1 > c.best then c.cur + 1 else c.best, c.cur + 1, c.mistakes)
      else if c.mistakes <= maxMistakes then RunCounters(c.best, c.cur, c.mistakes + 1)
      else RunCounters(c.best, 0, 0)
  }

  /** The best run lies between the longest strict run above the threshold and the number
      of values above it; so does the current run, which is at least the run at the end. */
  lemma {:induction false} AboveMinBounds(s: seq<real>, thr: real, maxMistakes: int)
    ensures var c := AboveMinCounters(s, thr, maxMistakes);
      TailRun(s, thr) <= c.cur <= CountAbove(s, thr) && LongestRun(s, thr) <= c.best <= CountAbove(s, thr)
  {
    if s != [] {
      AboveMinBounds(s[..|s| - 1], thr, maxMistakes);
    }
  }

  /** The mistake count never exceeds the number of values, nor one more than `maxMistakes`. */
  lemma {:induction false} AboveMinMistakes(s: seq<real>, thr: real, maxMistakes: int)
    ensures var c := AboveMinCounters(s, thr, maxMistakes);
      c.mistakes <= |s| && (c.mistakes == 0 || c.mistakes <= maxMistakes + 1)
  {
    if s != [] {
      AboveMinMistakes(s[..|s| - 1], thr, maxMistakes);
    }
  }

  /** With a negative `maxMistakes` every value at or below the threshold ends the run:
      the best run is the longest strict run. */
  lemma {:induction false} AboveMinStrict(s: seq<real>, thr: real, maxMistakes: int)
    requires maxMistakes < 0
    ensures var c := AboveMinCounters(s, thr, maxMistakes);
      c.cur == TailRun(s, thr) && c.best == LongestRun(s, thr) && c.mistakes == 0
  {
    if s != [] {
      AboveMinStrict(s[..|s| - 1], thr, maxMistakes);
    }
  }

  /** With at least as many allowed mistakes as values the run never starts over: the best
      run counts every value above the threshold. */
  lemma {:induction false} AboveMinTolerant(s: seq<real>, thr: real, maxMistakes: int)
    requires maxMistakes >= |s|
    ensures var c := AboveMinCounters(s, thr, maxMistakes);
      c.cur == CountAbove(s, thr) && c.best == c.cur
  {
    if s != [] {
      AboveMinTolerant(s[..|s| - 1], thr, maxMistakes);
      AboveMinMistakes(s[..|s| - 1], thr, maxMistakes);
    }
  }

  /** `continuous_above_min`: the best run of the counters above. It lies between the
      longest strict run and the number of points above the threshold, and is each of
      them at the extremes of `maxMistakes`. */
  method ContinuousAboveMin(e: seq<real>, thr: real, maxMistakes: int) returns (maxNum: nat)
    ensures maxNum == AboveMinCounters(e, thr, maxMistakes).best
    ensures LongestRun(e, thr) <= maxNum <= CountAbove(e, thr)
    ensures CountAbove(e, thr) == 0 ==> maxNum == 0
    ensures maxMistakes < 0 ==> maxNum == LongestRun(e, thr)
    ensures maxMistakes >= |e| ==> maxNum == CountAbove(e, thr)
  {
    maxNum := 0;
    var curNum: nat := 0;
    var mistakes: nat := 0;
    for i := 0 to |e|
      invariant RunCounters(maxNum, curNum, mistakes) == AboveMinCounters(e[..i], thr, maxMistakes)
    {
      assert e[..i + 1][..i] == e[..i];
      if e[i] > thr {
        curNum := curNum + 1;
        if curNum > maxNum {
          maxNum := curNum;
        }
      } else if mistakes <= maxMistakes {
        mistakes := mistakes + 1;
      } else {
        mistakes := 0;
        curNum := 0;
      }
    }
    assert e[..|e|] == e;
    AboveMinBounds(e, thr, maxMistakes);
    if maxMistakes < 0 {
      AboveMinStrict(e, thr, maxMistakes);
    }
    if maxMistakes >= |e| {
      AboveMinTolerant(e, thr, maxMistakes);
    }
  }
}
