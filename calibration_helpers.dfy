/** `find_nearest_unmasked_value`: the value of the unmasked cell of a masked
    lookup table that is closest to a coordinate. */
module CalibrationHelpers {
  import opened Wrappers

  /** A masked two-dimensional table: `mask[i][j]` is true for a masked cell. */
  datatype MaskedTable = MaskedTable(data: seq<seq<real>>, mask: seq<seq<bool>>)

  /** The data and the mask have the same shape. */
  predicate WellShaped(t: MaskedTable)
  {
    |t.data| == |t.mask| && forall i :: 0 <= i < |t.data| ==> |t.data[i]| == |t.mask[i]|
  }

  predicate Unmasked(t: MaskedTable, c: (int, int))
  {
    0 <= c.0 < |t.mask| && 0 <= c.1 < |t.mask[c.0]| && !t.mask[c.0][c.1]
  }

  /** Row-major order of cells. */
  predicate Before(a: (int, int), b: (int, int))
  {
    a.0 < b.0 || (a.0 == b.0 && a.1 < b.1)
  }

  /** The unmasked cells of row `i` from column `j` on. */
  function RowCells(t: MaskedTable, i: nat, j: nat): (cs: seq<(int, int)>)
    requires i < |t.mask| && j <= |t.mask[i]|
    ensures forall c :: c in cs <==> c.0 == i && j <= c.1 && Unmasked(t, c)
    ensures forall a, b :: 0 <= a < b < |cs| ==> cs[a].0 == i && Before(cs[a], cs[b])
    decreases |t.mask[i]| - j
  {
    if j == |t.mask[i]| then []
    else
      var rest := RowCells(t, i, j + 1);
      if t.mask[i][j] then rest else [(i as int, j as int)] + rest
  }

  /** `np.where(~mask)`: the unmasked cells from row `i` on, in row-major order. */
  function UnmaskedCells(t: MaskedTable, i: nat): (cs: seq<(int, int)>)
    requires i <= |t.mask|
    ensures forall c :: c in cs <==> i <= c.0 && Unmasked(t, c)
    ensures forall a, b :: 0 <= a < b < |cs| ==> Before(cs[a], cs[b])
    decreases |t.mask| - i
  {
    if i == |t.mask| then []
    else
      var row := RowCells(t, i, 0);
      var rest := UnmaskedCells(t, i + 1);
      assert forall a :: 0 <= a < |row| ==> row[a] in row;
      assert forall b :: 0 <= b < |rest| ==> rest[b] in rest;
      row + rest
  }

  /** The squared Euclidean distance between two cells; the distance orders
      cells the same way. */
  function DistSq(a: (int, int), b: (int, int)): (d: int)
    ensures d >= 0
  {
    (a.0 - b.0) * (a.0 - b.0) + (a.1 - b.1) * (a.1 - b.1)
  }

  /** `np.argmin` over the distances of `cs[..n]`: the first index of smallest distance. */
  function ArgMin(cs: seq<(int, int)>, c: (int, int), n: nat): (k: nat)
    requires 1 <= n <= |cs|
    ensures k < n
    ensures forall j :: 0 <= j < n ==> DistSq(cs[k], c) <= DistSq(cs[j], c)
    ensures forall j :: 0 <= j < k ==> DistSq(cs[k], c) < DistSq(cs[j], c)
  {
    if n == 1 then 0
    else
      var k := ArgMin(cs, c, n - 1);
      if DistSq(cs[n - 1], c) < DistSq(cs[k], c) then n - 1 else k
  }

  /** The nearest unmasked cell to `c`; `None` when every cell is masked, where
      `np.argmin` of an empty array raises. */
  function NearestUnmaskedCell(t: MaskedTable, c: (int, int)): (r: Option<(int, int)>)
    ensures r.None? <==> forall d :: !Unmasked(t, d)
    ensures r.Some? ==> Unmasked(t, r.value)
    ensures r.Some? ==> forall d :: Unmasked(t, d) ==> DistSq(r.value, c) <= DistSq(d, c)
    ensures r.Some? ==> forall d :: Unmasked(t, d) && Before(d, r.value) ==> DistSq(r.value, c) < DistSq(d, c)
  {
    var cs := UnmaskedCells(t, 0);
    if |cs| == 0 then
      None
    else
      var k := ArgMin(cs, c, |cs|);
      NoneUnmasked(t, cs);
      ArgMinIsNearest(t, c, cs, k);
      ArgMinIsFirst(t, c, cs, k);
      Some(cs[k])
  }

  lemma NoneUnmasked(t: MaskedTable, cs: seq<(int, int)>)
    requires cs == UnmaskedCells(t, 0)
    ensures |cs| == 0 <==> forall d :: !Unmasked(t, d)
  {
    if |cs| > 0 {
      assert cs[0] in cs;
    }
  }

  /** No unmasked cell is strictly closer than the one `np.argmin` picks. */
  lemma ArgMinIsNearest(t: MaskedTable, c: (int, int), cs: seq<(int, int)>, k: nat)
    requires cs == UnmaskedCells(t, 0) && 1 <= |cs| && k == ArgMin(cs, c, |cs|)
    ensures Unmasked(t, cs[k])
    ensures forall d :: Unmasked(t, d) ==> DistSq(cs[k], c) <= DistSq(d, c)
  {
    assert cs[k] in cs;
    forall d | Unmasked(t, d)
      ensures DistSq(cs[k], c) <= DistSq(d, c)
    {
      assert d in cs;
      var j :| 0 <= j < |cs| && cs[j] == d;
    }
  }

  /** Of equally close cells, `np.argmin` picks the first in row-major order. */
  lemma ArgMinIsFirst(t: MaskedTable, c: (int, int), cs: seq<(int, int)>, k: nat)
    requires cs == UnmaskedCells(t, 0) && 1 <= |cs| && k == ArgMin(cs, c, |cs|)
    ensures forall d :: Unmasked(t, d) && Before(d, cs[k]) ==> DistSq(cs[k], c) < DistSq(d, c)
  {
    forall d | Unmasked(t, d) && Before(d, cs[k])
      ensures DistSq(cs[k], c) < DistSq(d, c)
    {
      assert d in cs;
      EarlierInOrder(cs, k, d);
    }
  }

  /** In a row-major sorted list, a cell before `cs[k]` sits at an index below `k`. */
  lemma EarlierInOrder(cs: seq<(int, int)>, k: nat, d: (int, int))
    requires k < |cs| && d in cs && Before(d, cs[k])
    requires forall a, b :: 0 <= a < b < |cs| ==> Before(cs[a], cs[b])
    ensures exists j :: 0 <= j < k && cs[j] == d
  {
    var j :| 0 <= j < |cs| && cs[j] == d;
  }

  /** `find_nearest_unmasked_value`: the table value at the nearest unmasked
      cell, read without changing the table. */
  function FindNearestUnmaskedValue(t: MaskedTable, c: (int, int)): (r: Option<real>)
    requires WellShaped(t)
    ensures r.None? <==> forall d :: !Unmasked(t, d)
    ensures r.Some? ==> exists d :: Unmasked(t, d) && r.value == t.data[d.0][d.1] &&
                                    (forall e :: Unmasked(t, e) ==> DistSq(d, c) <= DistSq(e, c))
    ensures Unmasked(t, c) ==> r == Some(t.data[c.0][c.1])
  {
    match NearestUnmaskedCell(t, c)
    case None => None
    case Some(d) =>
      NearestIsSelf(t, d, c);
      Some(t.data[d.0][d.1])
  }

  /** A nearest unmasked cell of an unmasked coordinate is the coordinate itself. */
  lemma NearestIsSelf(t: MaskedTable, d: (int, int), c: (int, int))
    requires forall e :: Unmasked(t, e) ==> DistSq(d, c) <= DistSq(e, c)
    ensures Unmasked(t, c) ==> d == c
  {
    if Unmasked(t, c) {
      assert DistSq(d, c) <= DistSq(c, c) == 0;
      ZeroDistance(d, c);
    }
  }

  lemma ZeroDistance(d: (int, int), c: (int, int))
    requires DistSq(d, c) <= 0
    ensures d == c
  {
    var dx, dy := d.0 - c.0, d.1 - c.1;
    assert dx * dx >= 0 && dy * dy >= 0;
  }
}
