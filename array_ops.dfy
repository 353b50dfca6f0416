/** The numpy array primitives the GLM data set is built on: boolean-mask
    selection, `np.where`, `np.unique`, `np.argsort` and `np.argmax`. */
module ArrayOps {

  /** The number of true entries of a mask (`np.sum(mask)`). */
  function CountTrue(mask: seq<bool>): (r: nat)
    ensures r <= |mask|
  {
    if mask == [] then 0 else CountTrue(mask[..|mask| - 1]) + (if mask[|mask| - 1] then 1 else 0)
  }

  /** `xs == v`, elementwise. */
  function EqualMask<T(==)>(xs: seq<T>, v: T): (m: seq<bool>)
    ensures |m| == |xs| && forall k :: 0 <= k < |xs| ==> (m[k] <==> xs[k] == v)
  {
    seq(|xs|, k requires 0 <= k < |xs| => xs[k] == v)
  }

  /** `a & b`, elementwise. */
  function And(a: seq<bool>, b: seq<bool>): (m: seq<bool>)
    requires |a| == |b|
    ensures |m| == |a| && forall k :: 0 <= k < |a| ==> (m[k] <==> a[k] && b[k])
  {
    seq(|a|, k requires 0 <= k < |a| => a[k] && b[k])
  }

  /** `np.where(mask)[0]`: the positions of the true entries, in increasing order. */
  function Where(mask: seq<bool>): (r: seq<nat>)
    ensures |r| == CountTrue(mask)
    ensures forall j :: 0 <= j < |r| ==> r[j] < |mask| && mask[r[j]]
    ensures forall k :: 0 <= k < |mask| && mask[k] ==> k in r
    ensures forall a, b :: 0 <= a < b < |r| ==> r[a] < r[b]
  {
    if mask == [] then []
    else
      var n := |mask| - 1;
      var p := Where(mask[..n]);
      assert mask == mask[..n] + [mask[n]];
      WhereSnoc(mask[..n], mask[n], p);
      p + (if mask[n] then [n] else [])
  }

  /** One more mask entry adds its position when it is true. */
  lemma WhereSnoc(m: seq<bool>, b: bool, p: seq<nat>)
    requires |p| == CountTrue(m)
    requires forall j :: 0 <= j < |p| ==> p[j] < |m| && m[p[j]]
    requires forall k :: 0 <= k < |m| && m[k] ==> k in p
    requires forall a, c :: 0 <= a < c < |p| ==> p[a] < p[c]
    ensures var r := p + (if b then [|m|] else []); var mb := m + [b];
      |r| == CountTrue(mb) &&
      (forall j :: 0 <= j < |r| ==> r[j] < |mb| && mb[r[j]]) &&
      (forall k :: 0 <= k < |mb| && mb[k] ==> k in r) &&
      (forall a, c :: 0 <= a < c < |r| ==> r[a] < r[c])
  {
    assert (m + [b])[..|m|] == m;
  }

  /** `Where` of a mask with one more entry. */
  lemma WhereAppend(m: seq<bool>, b: bool)
    ensures Where(m + [b]) == Where(m) + (if b then [|m|] else [])
  {
    assert (m + [b])[..|m|] == m;
  }

  /** Boolean-mask indexing `xs[mask]`. */
  function Select<T>(xs: seq<T>, mask: seq<bool>): (r: seq<T>)
    requires |xs| == |mask|
    ensures |r| == CountTrue(mask)
  {
    if xs == [] then []
    else Select(xs[..|xs| - 1], mask[..|mask| - 1]) + (if mask[|mask| - 1] then [xs[|xs| - 1]] else [])
  }

  /** `xs[mask]` is `xs` read at the positions `np.where(mask)` lists. */
  lemma {:induction false} SelectAtWhere<T>(xs: seq<T>, mask: seq<bool>)
    requires |xs| == |mask|
    ensures |Select(xs, mask)| == |Where(mask)|
    ensures forall j :: 0 <= j < |Where(mask)| ==> Select(xs, mask)[j] == xs[Where(mask)[j]]
  {
    if xs != [] {
      var n := |xs| - 1;
      SelectAtWhere(xs[..n], mask[..n]);
    }
  }

  /** Every selected value comes from a position the mask keeps, and every
      kept position contributes its value. */
  lemma SelectMembers<T>(xs: seq<T>, mask: seq<bool>)
    requires |xs| == |mask|
    ensures forall x :: x in Select(xs, mask) ==> exists k :: 0 <= k < |xs| && mask[k] && x == xs[k]
    ensures forall k :: 0 <= k < |xs| && mask[k] ==> xs[k] in Select(xs, mask)
  {
    SelectAtWhere(xs, mask);
    var w, r := Where(mask), Select(xs, mask);
    forall x | x in r
      ensures exists k :: 0 <= k < |xs| && mask[k] && x == xs[k]
    {
      var j :| 0 <= j < |r| && r[j] == x;
      var k: nat := w[j];
      assert k < |xs| && mask[k] && x == xs[k];
    }
    forall k | 0 <= k < |xs| && mask[k]
      ensures xs[k] in r
    {
      var j :| 0 <= j < |w| && w[j] == k;
      assert r[j] == xs[k];
    }
  }

  /** Selecting with a mask of all false values gives nothing; with all true
      values, everything. */
  lemma {:induction false} SelectAll<T>(xs: seq<T>, mask: seq<bool>)
    requires |xs| == |mask|
    ensures (forall k :: 0 <= k < |mask| ==> mask[k]) ==> Select(xs, mask) == xs
    ensures (forall k :: 0 <= k < |mask| ==> !mask[k]) ==> Select(xs, mask) == []
  {
    if xs != [] {
      var n := |xs| - 1;
      SelectAll(xs[..n], mask[..n]);
      assert xs[..n] + [xs[n]] == xs;
    }
  }

  predicate StrictlyIncreasing(s: seq<int>)
  {
    forall a, b :: 0 <= a < b < |s| ==> s[a] < s[b]
  }

  function InsertSorted(s: seq<int>, x: int): (r: seq<int>)
    requires StrictlyIncreasing(s)
    ensures StrictlyIncreasing(r)
    ensures forall y :: y in r <==> y in s || y == x
  {
    if s == [] then [x]
    else if x < s[0] then [x] + s
    else if x == s[0] then s
    else
      var t := InsertSorted(s[1..], x);
      assert s == [s[0]] + s[1..];
      TailAbove(s);
      ConsIncreasing(s[0], t);
      [s[0]] + t
  }

  /** Every later value of an increasing sequence is above its head. */
  lemma TailAbove(s: seq<int>)
    requires StrictlyIncreasing(s) && s != []
    ensures forall y :: y in s[1..] ==> s[0] < y
  {
    forall y | y in s[1..] ensures s[0] < y {
      var i :| 0 <= i < |s[1..]| && s[1..][i] == y;
      assert s[i + 1] == y;
    }
  }

  lemma ConsIncreasing(h: int, t: seq<int>)
    requires StrictlyIncreasing(t) && forall y :: y in t ==> h < y
    ensures StrictlyIncreasing([h] + t)
    ensures forall y :: y in [h] + t <==> y == h || y in t
  {
    var r := [h] + t;
    forall a, b | 0 <= a < b < |r| ensures r[a] < r[b] {
      assert r[b] == t[b - 1];
      if a > 0 {
        assert r[a] == t[a - 1];
      } else {
        assert t[b - 1] in t;
      }
    }
  }

  /** `np.unique`: the distinct values, in increasing order. */
  function Unique(xs: seq<int>): (r: seq<int>)
    ensures StrictlyIncreasing(r)
    ensures forall y :: y in r <==> y in xs
  {
    if xs == [] then []
    else
      var r := InsertSorted(Unique(xs[..|xs| - 1]), xs[|xs| - 1]);
      assert forall y :: y in xs <==> y in xs[..|xs| - 1] || y == xs[|xs| - 1] by {
        assert xs == xs[..|xs| - 1] + [xs[|xs| - 1]];
      }
      r
  }

  predicate Distinct<T(==)>(s: seq<T>)
  {
    forall a, b :: 0 <= a < b < |s| ==> s[a] != s[b]
  }

  lemma IncreasingDistinct(s: seq<int>)
    requires StrictlyIncreasing(s)
    ensures Distinct(s)
  {
  }

  /** `idx` lists positions of `keys` in order of non-decreasing key. */
  predicate SortedBy(idx: seq<nat>, keys: seq<real>)
  {
    (forall j :: 0 <= j < |idx| ==> idx[j] < |keys|) &&
    forall a, b :: 0 <= a < b < |idx| ==> keys[idx[a]] <= keys[idx[b]]
  }

  /** Inserts position `k` after every position whose key is not larger. */
  function InsertBy(idx: seq<nat>, k: nat, keys: seq<real>): (r: seq<nat>)
    ensures |r| == |idx| + 1
    ensures multiset(r) == multiset(idx) + multiset{k}
    ensures forall y :: y in r <==> y in idx || y == k
  {
    if idx == [] then [k]
    else if k < |keys| && idx[0] < |keys| && keys[k] < keys[idx[0]] then [k] + idx
    else
      assert idx == [idx[0]] + idx[1..];
      [idx[0]] + InsertBy(idx[1..], k, keys)
  }

  lemma SortedCons(x: nat, t: seq<nat>, keys: seq<real>)
    requires x < |keys| && SortedBy(t, keys)
    requires forall y :: y in t ==> keys[x] <= keys[y]
    ensures SortedBy([x] + t, keys)
  {
    var r := [x] + t;
    forall a, b | 0 <= a < b < |r| ensures keys[r[a]] <= keys[r[b]] {
      if a == 0 {
        assert r[b] == t[b - 1] && r[b] in t;
      } else {
        assert r[a] == t[a - 1] && r[b] == t[b - 1];
      }
    }
  }

  lemma {:induction false} InsertBySorted(idx: seq<nat>, k: nat, keys: seq<real>)
    requires k < |keys| && SortedBy(idx, keys)
    ensures SortedBy(InsertBy(idx, k, keys), keys)
  {
    if idx == [] {
    } else if keys[k] < keys[idx[0]] {
      forall y | y in idx ensures keys[k] <= keys[y] {
        var j :| 0 <= j < |idx| && idx[j] == y;
        assert j == 0 || keys[idx[0]] <= keys[idx[j]];
      }
      SortedCons(k, idx, keys);
    } else {
      var t := InsertBy(idx[1..], k, keys);
      InsertBySorted(idx[1..], k, keys);
      forall y | y in t ensures keys[idx[0]] <= keys[y] {
        if y != k {
          var j :| 0 <= j < |idx[1..]| && idx[1..][j] == y;
          assert idx[j + 1] == y;
        }
      }
      SortedCons(idx[0], t, keys);
    }
  }

  /** The positions `0 .. n-1`. */
  function Range(n: nat): (r: seq<nat>)
    ensures |r| == n && forall j :: 0 <= j < n ==> r[j] == j
  {
    seq(n, j requires 0 <= j => j)
  }

  function ArgSortUpTo(keys: seq<real>, n: nat): (r: seq<nat>)
    requires n <= |keys|
    ensures |r| == n
    ensures SortedBy(r, keys)
    ensures multiset(r) == multiset(Range(n))
  {
    if n == 0 then []
    else
      assert Range(n) == Range(n - 1) + [n - 1];
      InsertBySorted(ArgSortUpTo(keys, n - 1), n - 1, keys);
      InsertBy(ArgSortUpTo(keys, n - 1), n - 1, keys)
  }

  /** `np.argsort`: the positions of `keys`, ordered by key; equal keys keep
      their order of position. */
  function ArgSort(keys: seq<real>): (r: seq<nat>)
    ensures |r| == |keys|
    ensures SortedBy(r, keys)
    ensures multiset(r) == multiset(Range(|keys|))
  {
    ArgSortUpTo(keys, |keys|)
  }

  /** An argsort is a permutation of the positions: each position exactly once. */
  lemma {:induction false} ArgSortPermutation(keys: seq<real>)
    ensures |ArgSort(keys)| == |keys|
    ensures Distinct(ArgSort(keys))
    ensures forall k :: 0 <= k < |keys| ==> k in ArgSort(keys)
  {
    var r, n := ArgSort(keys), |keys|;
    assert |r| == |multiset(r)| == |multiset(Range(n))| == n;
    forall k | 0 <= k < n ensures k in r {
      assert Range(n)[k] == k;
      assert k in multiset(Range(n));
    }
    forall a, b | 0 <= a < b < n ensures r[a] != r[b] {
      if r[a] == r[b] {
        RangeOnce(n, r[a]);
        TwiceInSeq(r, a, b);
        assert false;
      }
    }
  }

  lemma {:induction false} RangeOnce(n: nat, k: nat)
    ensures multiset(Range(n))[k] <= 1
  {
    if n > 0 {
      assert Range(n) == Range(n - 1) + [n - 1];
      RangeOnce(n - 1, k);
      if k == n - 1 {
        assert k !in Range(n - 1);
      }
    }
  }

  lemma {:induction false} TwiceInSeq<T>(s: seq<T>, a: nat, b: nat)
    requires a < b < |s| && s[a] == s[b]
    ensures multiset(s)[s[a]] >= 2
  {
    assert s == s[..b] + [s[b]] + s[b + 1..];
    assert s[a] in s[..b];
    assert multiset(s[..b])[s[a]] >= 1;
  }

  /** `np.argmax`: the first position of the largest value. */
  function ArgMax(xs: seq<real>): (k: nat)
    requires |xs| > 0
    ensures k < |xs|
    ensures forall j :: 0 <= j < |xs| ==> xs[j] <= xs[k]
    ensures forall j :: 0 <= j < k ==> xs[j] < xs[k]
  {
    if |xs| == 1 then 0
    else
      var k := ArgMax(xs[..|xs| - 1]);
      if xs[|xs| - 1] > xs[k] then |xs| - 1 else k
  }

  /** `np.argmin`: the first position of the smallest value. */
  function ArgMin(xs: seq<real>): (k: nat)
    requires |xs| > 0
    ensures k < |xs|
    ensures forall j :: 0 <= j < |xs| ==> xs[k] <= xs[j]
    ensures forall j :: 0 <= j < k ==> xs[k] < xs[j]
  {
    if |xs| == 1 then 0
    else
      var k := ArgMin(xs[..|xs| - 1]);
      if xs[|xs| - 1] < xs[k] then |xs| - 1 else k
  }

  /** `xs[idx]`: integer-array indexing. */
  function Gather<T>(xs: seq<T>, idx: seq<nat>): (r: seq<T>)
    requires forall j :: 0 <= j < |idx| ==> idx[j] < |xs|
    ensures |r| == |idx| && forall j :: 0 <= j < |idx| ==> r[j] == xs[idx[j]]
  {
    seq(|idx|, j requires 0 <= j < |idx| => xs[idx[j]])
  }

  /** `np.in1d(xs, vals)`: which entries of `xs` occur in `vals`. */
  function InMask(xs: seq<int>, vals: seq<int>): (m: seq<bool>)
    ensures |m| == |xs| && forall k :: 0 <= k < |xs| ==> (m[k] <==> xs[k] in vals)
  {
    seq(|xs|, k requires 0 <= k < |xs| => xs[k] in vals)
  }

  /** A mask with a true entry selects something. */
  lemma MaskNonEmpty(mask: seq<bool>, k: nat)
    requires k < |mask| && mask[k]
    ensures CountTrue(mask) > 0
  {
    assert k in Where(mask);
  }

  /** `np.argmax(xs[mask])` mapped back through `np.where(mask)` is the first
      selected position holding the largest selected value. */
  lemma ArgMaxOfSelect(xs: seq<real>, mask: seq<bool>)
    requires |xs| == |mask| && CountTrue(mask) > 0
    ensures var k := Where(mask)[ArgMax(Select(xs, mask))];
      k < |xs| && mask[k] && (forall j :: 0 <= j < |xs| && mask[j] ==> xs[j] <= xs[k]) &&
      (forall j :: 0 <= j < k && mask[j] ==> xs[j] < xs[k])
  {
    SelectAtWhere(xs, mask);
    var w, s := Where(mask), Select(xs, mask);
    var i := ArgMax(s);
    var k := w[i];
    forall j | 0 <= j < |xs| && mask[j]
      ensures xs[j] <= xs[k] && (j < k ==> xs[j] < xs[k])
    {
      var a :| 0 <= a < |w| && w[a] == j;
      assert s[a] == xs[j];
      if j < k {
        assert a < i;
      }
    }
  }

  /** `np.argmin(xs[mask])` mapped back through `np.where(mask)` is the first
      selected position holding the smallest selected value. */
  lemma ArgMinOfSelect(xs: seq<real>, mask: seq<bool>)
    requires |xs| == |mask| && CountTrue(mask) > 0
    ensures var k := Where(mask)[ArgMin(Select(xs, mask))];
      k < |xs| && mask[k] && (forall j :: 0 <= j < |xs| && mask[j] ==> xs[k] <= xs[j]) &&
      (forall j :: 0 <= j < k && mask[j] ==> xs[k] < xs[j])
  {
    SelectAtWhere(xs, mask);
    var w, s := Where(mask), Select(xs, mask);
    var i := ArgMin(s);
    var k := w[i];
    forall j | 0 <= j < |xs| && mask[j]
      ensures xs[k] <= xs[j] && (j < k ==> xs[k] < xs[j])
    {
      var a :| 0 <= a < |w| && w[a] == j;
      assert s[a] == xs[j];
      if j < k {
        assert a < i;
      }
    }
  }

  /** A function applied elementwise commutes with boolean-mask selection. */
  lemma {:induction false} SelectMap<T, U>(xs: seq<T>, ys: seq<U>, mask: seq<bool>, f: T -> U)
    requires |xs| == |ys| == |mask| && forall k :: 0 <= k < |xs| ==> ys[k] == f(xs[k])
    ensures |Select(xs, mask)| == |Select(ys, mask)|
    ensures forall j :: 0 <= j < |Select(xs, mask)| ==> Select(ys, mask)[j] == f(Select(xs, mask)[j])
  {
    SelectAtWhere(xs, mask);
    SelectAtWhere(ys, mask);
  }

  /** The first position a mask keeps is its smallest true position. */
  lemma WhereFirst(mask: seq<bool>)
    requires CountTrue(mask) > 0
    ensures forall k :: 0 <= k < Where(mask)[0] ==> !mask[k]
  {
    var w := Where(mask);
    forall k | 0 <= k < |mask| && mask[k]
      ensures w[0] <= k
    {
      var a :| 0 <= a < |w| && w[a] == k;
      assert w[0] <= w[a];
    }
  }

  /** `np.where(mask)` keeps the order of positions both ways. */
  lemma WhereOrder(mask: seq<bool>)
    ensures forall a, b :: 0 <= a < |Where(mask)| && 0 <= b < |Where(mask)| ==>
      (a < b <==> Where(mask)[a] < Where(mask)[b])
  {
  }

  /** The values of `xs` in order of first occurrence, each once. */
  function FirstOccurrences<T(==,!new)>(xs: seq<T>): (r: seq<T>)
    ensures Distinct(r)
    ensures forall y :: y in r <==> y in xs
  {
    if xs == [] then []
    else
      var p := FirstOccurrences(xs[..|xs| - 1]);
      var x := xs[|xs| - 1];
      assert forall y :: y in xs <==> y in xs[..|xs| - 1] || y == x by {
        assert xs == xs[..|xs| - 1] + [x];
      }
      if x in p then p else p + [x]
  }

  /** `xs[mask] = vals`: writes the values, in order, at the positions the
      mask keeps, and leaves every other position alone. */
  function Scatter<T>(xs: seq<T>, mask: seq<bool>, vals: seq<T>): (r: seq<T>)
    requires |xs| == |mask| && |vals| == CountTrue(mask)
    ensures |r| == |xs|
    ensures forall k :: 0 <= k < |xs| && !mask[k] ==> r[k] == xs[k]
    ensures forall j :: 0 <= j < |vals| ==> r[Where(mask)[j]] == vals[j]
  {
    if xs == [] then []
    else
      var n := |xs| - 1;
      var c := CountTrue(mask[..n]);
      var p := Scatter(xs[..n], mask[..n], vals[..c]);
      assert xs == xs[..n] + [xs[n]] && mask == mask[..n] + [mask[n]];
      ScatterSnoc(xs[..n], xs[n], mask[..n], mask[n], vals, p);
      p + [if mask[n] then vals[c] else xs[n]]
  }

  /** One more entry: written when its mask entry is true, kept otherwise. */
  lemma ScatterSnoc<T>(ys: seq<T>, x: T, m: seq<bool>, b: bool, vals: seq<T>, p: seq<T>)
    requires |ys| == |m| == |p| && |vals| == CountTrue(m + [b])
    requires forall k :: 0 <= k < |ys| && !m[k] ==> p[k] == ys[k]
    requires forall j :: 0 <= j < CountTrue(m) ==> p[Where(m)[j]] == vals[j]
    ensures CountTrue(m + [b]) == CountTrue(m) + (if b then 1 else 0)
    ensures var r := p + [if b then vals[CountTrue(m)] else x];
      (forall k :: 0 <= k < |ys| + 1 && !(m + [b])[k] ==> r[k] == (ys + [x])[k]) &&
      (forall j :: 0 <= j < |vals| ==> r[Where(m + [b])[j]] == vals[j])
  {
    assert (m + [b])[..|m|] == m;
    var r := p + [if b then vals[CountTrue(m)] else x];
    ScatterSnocKeeps(ys, x, m, b, p, r);
    ScatterSnocWrites(m, b, vals, p, r);
  }

  lemma ScatterSnocKeeps<T>(ys: seq<T>, x: T, m: seq<bool>, b: bool, p: seq<T>, r: seq<T>)
    requires |ys| == |m| == |p| && |r| == |p| + 1 && r[..|p|] == p && (!b ==> r[|p|] == x)
    requires forall k :: 0 <= k < |ys| && !m[k] ==> p[k] == ys[k]
    ensures forall k :: 0 <= k < |ys| + 1 && !(m + [b])[k] ==> r[k] == (ys + [x])[k]
  {
    forall k | 0 <= k < |ys| + 1 && !(m + [b])[k] ensures r[k] == (ys + [x])[k] {
      if k < |ys| {
        assert r[k] == r[..|p|][k] == p[k] && (m + [b])[k] == m[k] && (ys + [x])[k] == ys[k];
      }
    }
  }

  lemma ScatterSnocWrites<T>(m: seq<bool>, b: bool, vals: seq<T>, p: seq<T>, r: seq<T>)
    requires |m| == |p| && |vals| == CountTrue(m) + (if b then 1 else 0)
    requires |r| == |p| + 1 && r[..|p|] == p && (b ==> r[|p|] == vals[CountTrue(m)])
    requires forall j :: 0 <= j < CountTrue(m) ==> p[Where(m)[j]] == vals[j]
    ensures forall j :: 0 <= j < |vals| ==> r[Where(m + [b])[j]] == vals[j]
  {
    WhereAppend(m, b);
    var w := Where(m);
    forall j | 0 <= j < |vals| ensures r[Where(m + [b])[j]] == vals[j] {
      if j < |w| {
        assert Where(m + [b])[j] == w[j];
        assert r[w[j]] == r[..|p|][w[j]] == p[w[j]];
      } else {
        assert Where(m + [b])[j] == |m|;
      }
    }
  }

  /** `xs[idx] = vals` with an integer index array: each listed position
      receives its value, and every other position is left alone. */
  function ScatterAt<T>(xs: seq<T>, idx: seq<nat>, vals: seq<T>): (r: seq<T>)
    requires |idx| == |vals| && forall j :: 0 <= j < |idx| ==> idx[j] < |xs|
    ensures |r| == |xs|
    ensures forall k :: 0 <= k < |xs| && k !in idx ==> r[k] == xs[k]
    ensures Distinct(idx) ==> forall j :: 0 <= j < |idx| ==> r[idx[j]] == vals[j]
  {
    if idx == [] then xs
    else
      var n := |idx| - 1;
      var p := ScatterAt(xs, idx[..n], vals[..n]);
      assert idx == idx[..n] + [idx[n]];
      p[idx[n] := vals[n]]
  }

  /** The first position of an argsort holds the smallest key, the last
      position the largest. */
  lemma {:induction false} ArgSortEnds(keys: seq<real>)
    requires |keys| > 0
    ensures forall j :: 0 <= j < |keys| ==> keys[ArgSort(keys)[0]] <= keys[j] <= keys[ArgSort(keys)[|keys| - 1]]
  {
    var r := ArgSort(keys);
    ArgSortPermutation(keys);
    forall j | 0 <= j < |keys|
      ensures keys[r[0]] <= keys[j] <= keys[r[|keys| - 1]]
    {
      assert j in r;
      var a :| 0 <= a < |r| && r[a] == j;
    }
  }

  /** A mask that selects nothing has no true entry. */
  lemma {:induction false} MaskEmpty(mask: seq<bool>)
    requires CountTrue(mask) == 0
    ensures forall k :: 0 <= k < |mask| ==> !mask[k]
  {
    if mask != [] {
      MaskEmpty(mask[..|mask| - 1]);
    }
  }

  /** One more element of a prefix. */
  lemma PrefixStep<T>(s: seq<T>, j: nat)
    requires j < |s|
    ensures s[..j + 1] == s[..j] + [s[j]]
  {
  }

  lemma PrefixAll<T>(s: seq<T>)
    ensures s[..|s|] == s
  {
  }
}
