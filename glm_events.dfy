/** The event-level (pixel) steps of the GLM data set: the missing-energy
    fill value, pruning of events to the groups of the triggering clusters,
    the pixel lookup in a reduced calibration table and the conversion of
    an event energy into a source intensity. */
module GlmEvents {
  import opened Wrappers
  import opened RealMath
  import opened ArrayOps
  import CalibrationHelpers

  // ---------------------------------------------------------------------------
  // extract_event_energy

  /** The netCDF `event_energy` variable: its values, its mask (`None` when
      netCDF4 reports the scalar `np.bool_` mask of a variable with nothing
      missing), the packing attributes and the integer type it is stored in. */
  datatype EnergyVariable = EnergyVariable(
    values: seq<real>, mask: Option<seq<bool>>,
    scaleFactor: real, addOffset: real,
    unsignedAttr: string, signedKind: bool, typeMax: int)

  /** `_Unsigned.lower()[0] == "t"`; an empty attribute raises. */
  function IsUnsignedFlag(attr: string): (r: Option<bool>)
    ensures r.None? <==> attr == []
    ensures r == Some(true) <==> attr != [] && (attr[0] == 't' || attr[0] == 'T')
  {
    if attr == [] then None else Some(attr[0] == 't' || attr[0] == 'T')
  }

  /** The largest recordable integer, doubled plus one for a signed type
      flagged unsigned. */
  function RecordableMax(v: EnergyVariable, unsigned: bool): (m: int)
    ensures v.signedKind && unsigned ==> m == 2 * v.typeMax + 1
    ensures !(v.signedKind && unsigned) ==> m == v.typeMax
  {
    if v.signedKind && unsigned then 2 * v.typeMax + 1 else v.typeMax
  }

  /** The replacement for missing energies: the largest recordable integer,
      unpacked with the variable's scale factor and offset. */
  function FillValue(v: EnergyVariable): (r: Option<real>)
    ensures r.None? <==> v.unsignedAttr == []
    ensures r.Some? ==> exists u :: IsUnsignedFlag(v.unsignedAttr) == Some(u) &&
                                    r.value == RecordableMax(v, u) as real * v.scaleFactor + v.addOffset
  {
    match IsUnsignedFlag(v.unsignedAttr)
    case None => None
    case Some(u) => Some(RecordableMax(v, u) as real * v.scaleFactor + v.addOffset)
  }

  /** `event_energies[mask] = fill`. */
  function Fill(xs: seq<real>, mask: seq<bool>, fill: real): (r: seq<real>)
    requires |xs| == |mask|
    ensures |r| == |xs|
    ensures forall k :: 0 <= k < |xs| ==> r[k] == if mask[k] then fill else xs[k]
  {
    seq(|xs|, k requires 0 <= k < |xs| => if mask[k] then fill else xs[k])
  }

  /** `extract_event_energy`: masked energies become the fill value; with no
      mask the values are returned as they are and the attributes are not
      read. */
  function ExtractEventEnergy(v: EnergyVariable): (r: Option<seq<real>>)
    requires v.mask.Some? ==> |v.mask.value| == |v.values|
    ensures v.mask.None? ==> r == Some(v.values)
    ensures v.mask.Some? ==> (r.None? <==> v.unsignedAttr == [])
    ensures r.Some? ==> |r.value| == |v.values|
    ensures r.Some? && v.mask.Some? ==> forall k :: 0 <= k < |v.values| ==>
      r.value[k] == if v.mask.value[k] then FillValue(v).value else v.values[k]
  {
    match v.mask
    case None => Some(v.values)
    case Some(m) =>
      match FillValue(v)
      case None => None
      case Some(f) => Some(Fill(v.values, m, f))
  }

  /** The case the source documents: an `int16` variable flagged unsigned
      gets the unsigned 16-bit maximum 65535 as its recordable maximum, so
      the fill value is 65535 scale factors plus the offset. */
  lemma Int16UnsignedFill(v: EnergyVariable)
    requires v.signedKind && v.typeMax == 32767 && v.unsignedAttr == "true"
    ensures FillValue(v) == Some(65535.0 * v.scaleFactor + v.addOffset)
  {
    assert v.unsignedAttr[0] == 't';
    assert IsUnsignedFlag(v.unsignedAttr) == Some(true);
    assert RecordableMax(v, true) == 65535;
  }

  /** Unmasked energies are never changed, whatever the attributes say. */
  lemma UnmaskedEnergiesKept(v: EnergyVariable, k: nat)
    requires v.mask.Some? ==> |v.mask.value| == |v.values|
    requires k < |v.values| && (v.mask.None? || !v.mask.value[k])
    requires ExtractEventEnergy(v).Some?
    ensures ExtractEventEnergy(v).value[k] == v.values[k]
  {
  }

  // ---------------------------------------------------------------------------
  // prune_event_data_by_group_id

  /** The event-level arrays, co-indexed by event. */
  datatype Events = Events(time: seq<real>, lat: seq<real>, lon: seq<real>,
                           energy: seq<real>, intensity: seq<real>, parentGroupId: seq<int>)
  {
    predicate Valid()
    {
      |time| == |lat| == |lon| == |energy| == |intensity| == |parentGroupId|
    }
  }

  /** Which events belong to a group of one of the good clusters. */
  function KeepEvents(parentGroupId: seq<int>, groupId: seq<int>, clusterId: seq<int>, good: seq<int>): (keep: seq<bool>)
    requires |groupId| == |clusterId|
    ensures |keep| == |parentGroupId|
    ensures forall e :: 0 <= e < |parentGroupId| ==>
      (keep[e] <==> exists k :: 0 <= k < |groupId| && clusterId[k] in good && groupId[k] == parentGroupId[e])
  {
    var goodGroups := Select(groupId, InMask(clusterId, good));
    SelectMembers(groupId, InMask(clusterId, good));
    InMask(parentGroupId, goodGroups)
  }

  /** `prune_event_data_by_group_id`: every event array cut by the same mask. */
  function PruneEventData(ev: Events, groupId: seq<int>, clusterId: seq<int>, good: seq<int>): (r: Events)
    requires ev.Valid() && |groupId| == |clusterId|
    ensures r.Valid()
    ensures var keep := KeepEvents(ev.parentGroupId, groupId, clusterId, good);
      r == Events(Select(ev.time, keep), Select(ev.lat, keep), Select(ev.lon, keep),
                  Select(ev.energy, keep), Select(ev.intensity, keep), Select(ev.parentGroupId, keep))
  {
    var keep := KeepEvents(ev.parentGroupId, groupId, clusterId, good);
    Events(Select(ev.time, keep), Select(ev.lat, keep), Select(ev.lon, keep),
           Select(ev.energy, keep), Select(ev.intensity, keep), Select(ev.parentGroupId, keep))
  }

  /** A pruned event is an original event, whole: its position `np.where(keep)`
      gives the same index into every array, and its parent group belongs to
      a good cluster. An event of such a group is never dropped. */
  lemma PruneKeepsWholeEvents(ev: Events, groupId: seq<int>, clusterId: seq<int>, good: seq<int>, j: nat)
    requires ev.Valid() && |groupId| == |clusterId|
    requires j < |PruneEventData(ev, groupId, clusterId, good).time|
    ensures var keep := KeepEvents(ev.parentGroupId, groupId, clusterId, good);
      var e := Where(keep)[j];
      var r := PruneEventData(ev, groupId, clusterId, good);
      e < |ev.time| &&
      r.time[j] == ev.time[e] && r.lat[j] == ev.lat[e] && r.lon[j] == ev.lon[e] &&
      r.energy[j] == ev.energy[e] && r.intensity[j] == ev.intensity[e] &&
      r.parentGroupId[j] == ev.parentGroupId[e] &&
      exists k :: 0 <= k < |groupId| && clusterId[k] in good && groupId[k] == r.parentGroupId[j]
  {
    var keep := KeepEvents(ev.parentGroupId, groupId, clusterId, good);
    SelectAtWhere(ev.time, keep);
    SelectAtWhere(ev.lat, keep);
    SelectAtWhere(ev.lon, keep);
    SelectAtWhere(ev.energy, keep);
    SelectAtWhere(ev.intensity, keep);
    SelectAtWhere(ev.parentGroupId, keep);
  }

  lemma PruneKeepsGoodGroups(ev: Events, groupId: seq<int>, clusterId: seq<int>, good: seq<int>, e: nat, k: nat)
    requires ev.Valid() && |groupId| == |clusterId|
    requires e < |ev.time| && k < |groupId| && clusterId[k] in good && groupId[k] == ev.parentGroupId[e]
    ensures ev.time[e] in PruneEventData(ev, groupId, clusterId, good).time
  {
    SelectMembers(ev.time, KeepEvents(ev.parentGroupId, groupId, clusterId, good));
  }

  // ---------------------------------------------------------------------------
  // lat_lon_to_pixel_xy

  /** One row of a reduced calibration table: latitude, longitude and the
      pixel coordinates it maps to. */
  datatype PixelRow = PixelRow(lat: real, lon: real, x: int, y: int)

  const NumTries: nat := 10

  /** The rows a reducing table keeps: all of them, or the rows within one
      pixel of an x pixel, or of a y pixel. */
  datatype Band = AllRows | NearX(x: int) | NearY(y: int)

  predicate InBand(r: PixelRow, b: Band)
  {
    match b
    case AllRows => true
    case NearX(x) => -1 <= r.x - x <= 1
    case NearY(y) => -1 <= r.y - y <= 1
  }

  /** The absolute difference searched on: longitude or latitude. */
  function Gap(r: PixelRow, byLon: bool, v: real): real
  {
    if byLon then Abs(r.lon - v) else Abs(r.lat - v)
  }

  /** Some of the first `n` rows lies in the band. */
  predicate Occupied(table: seq<PixelRow>, b: Band, n: nat)
    requires n <= |table|
  {
    exists j :: 0 <= j < n && InBand(table[j], b)
  }

  /** The first of the first `n` rows of the band with the smallest gap. */
  function FirstNearest(table: seq<PixelRow>, b: Band, byLon: bool, v: real, n: nat): (k: nat)
    requires n <= |table| && Occupied(table, b, n)
    ensures k < n && InBand(table[k], b)
    ensures forall j :: 0 <= j < n && InBand(table[j], b) ==> Gap(table[k], byLon, v) <= Gap(table[j], byLon, v)
    ensures forall j :: 0 <= j < k && InBand(table[j], b) ==> Gap(table[k], byLon, v) < Gap(table[j], byLon, v)
  {
    var m := n - 1;
    if !Occupied(table, b, m) then
      assert InBand(table[m], b);
      m
    else
      var k := FirstNearest(table, b, byLon, v, m);
      if InBand(table[m], b) && Gap(table[m], byLon, v) < Gap(table[k], byLon, v) then m else k
  }

  lemma OccupiedAt(table: seq<PixelRow>, b: Band, k: nat)
    requires k < |table| && InBand(table[k], b)
    ensures Occupied(table, b, |table|)
  {
  }

  /** The x pixel of the band row nearest in longitude; its own x band is
      never empty. */
  function TryX(table: seq<PixelRow>, red: Band, lon: real): (x: int)
    requires Occupied(table, red, |table|)
    ensures Occupied(table, NearX(x), |table|)
  {
    var k := FirstNearest(table, red, true, lon, |table|);
    OccupiedAt(table, NearX(table[k].x), k);
    table[k].x
  }

  /** The y pixel of the row nearest in latitude within the x band of `x`;
      its own y band is never empty. */
  function TryY(table: seq<PixelRow>, x: int, lat: real): (y: int)
    requires Occupied(table, NearX(x), |table|)
    ensures Occupied(table, NearY(y), |table|)
  {
    var k := FirstNearest(table, NearX(x), false, lat, |table|);
    OccupiedAt(table, NearY(table[k].y), k);
    table[k].y
  }

  predicate Stable(xs: seq<int>, ys: seq<int>)
    requires |xs| == |ys| >= 3
  {
    var n := |xs|;
    xs[n - 3] == xs[n - 2] == xs[n - 1] && ys[n - 3] == ys[n - 2] == ys[n - 1]
  }

  /** The search stops once the last three tries agree, or after the tenth. */
  predicate Stop(s: nat, xs: seq<int>, ys: seq<int>)
    requires |xs| == |ys| == s + 1
  {
    (s >= 2 && Stable(xs, ys)) || s == NumTries - 1
  }

  /** The search from try `s` on, with the reducing band `red` and the pixel
      lists `xs`, `ys` of the earlier tries. */
  function Search(table: seq<PixelRow>, red: Band, lon: real, lat: real, s: nat, xs: seq<int>, ys: seq<int>): (p: (int, int))
    requires Occupied(table, red, |table|) && s < NumTries && |xs| == |ys| == s
    decreases NumTries - s
  {
    var x := TryX(table, red, lon);
    var y := TryY(table, x, lat);
    if Stop(s, xs + [x], ys + [y]) then (x, y)
    else Search(table, NearY(y), lon, lat, s + 1, xs + [x], ys + [y])
  }

  /** One try of the search: it stops with this try's pair or goes on with
      the band of this try's y pixel. */
  lemma SearchStep(table: seq<PixelRow>, red: Band, lon: real, lat: real, s: nat, xs: seq<int>, ys: seq<int>, x: int, y: int)
    requires Occupied(table, red, |table|) && s < NumTries && |xs| == |ys| == s
    requires x == TryX(table, red, lon) && y == TryY(table, x, lat)
    ensures Occupied(table, NearY(y), |table|)
    ensures Search(table, red, lon, lat, s, xs, ys) ==
        if Stop(s, xs + [x], ys + [y]) then (x, y)
        else Search(table, NearY(y), lon, lat, s + 1, xs + [x], ys + [y])
  {
  }

  /** `y` is the y pixel of a table row within one x pixel of `x` that is
      nearest in latitude among all such rows, and `x` is a table x pixel. */
  predicate PixelFound(table: seq<PixelRow>, lat: real, x: int, y: int)
  {
    (exists k :: 0 <= k < |table| && table[k].x == x) &&
    exists e :: 0 <= e < |table| && table[e].y == y && InBand(table[e], NearX(x)) &&
                forall j :: 0 <= j < |table| && InBand(table[j], NearX(x)) ==> Gap(table[e], false, lat) <= Gap(table[j], false, lat)
  }

  lemma TryYFound(table: seq<PixelRow>, red: Band, lon: real, lat: real)
    requires Occupied(table, red, |table|)
    ensures PixelFound(table, lat, TryX(table, red, lon), TryY(table, TryX(table, red, lon), lat))
  {
    var kx := FirstNearest(table, red, true, lon, |table|);
    var x := TryX(table, red, lon);
    assert table[kx].x == x;
    var ky := FirstNearest(table, NearX(x), false, lat, |table|);
    assert table[ky].y == TryY(table, x, lat);
  }

  /** Whatever try the search stops at, the pixel pair it returns is a table
      x pixel together with the y pixel of the row nearest in latitude among
      the rows within one x pixel of it. */
  lemma {:induction false} SearchFound(table: seq<PixelRow>, red: Band, lon: real, lat: real, s: nat, xs: seq<int>, ys: seq<int>)
    requires Occupied(table, red, |table|) && s < NumTries && |xs| == |ys| == s
    ensures var p := Search(table, red, lon, lat, s, xs, ys); PixelFound(table, lat, p.0, p.1)
    decreases NumTries - s
  {
    var x := TryX(table, red, lon);
    var y := TryY(table, x, lat);
    SearchStep(table, red, lon, lat, s, xs, ys, x, y);
    if Stop(s, xs + [x], ys + [y]) {
      TryYFound(table, red, lon, lat);
    } else {
      SearchFound(table, NearY(y), lon, lat, s + 1, xs + [x], ys + [y]);
    }
  }

  /** The band of a reducing table as a boolean mask. */
  function BandMask(table: seq<PixelRow>, b: Band): (m: seq<bool>)
    ensures |m| == |table| && forall k :: 0 <= k < |table| ==> (m[k] <==> InBand(table[k], b))
  {
    seq(|table|, k requires 0 <= k < |table| => InBand(table[k], b))
  }

  function Gaps(rows: seq<PixelRow>, byLon: bool, v: real): (g: seq<real>)
    ensures |g| == |rows| && forall k :: 0 <= k < |rows| ==> g[k] == Gap(rows[k], byLon, v)
  {
    seq(|rows|, k requires 0 <= k < |rows| => Gap(rows[k], byLon, v))
  }

  /** The first nearest band row is the row numpy picks: the `argmin` of the
      differences over the masked table, mapped back through `np.where`. */
  lemma GapsOfSelect(table: seq<PixelRow>, m: seq<bool>, byLon: bool, v: real)
    requires |m| == |table|
    ensures Gaps(Select(table, m), byLon, v) == Select(Gaps(table, byLon, v), m)
  {
    SelectMap(table, Gaps(table, byLon, v), m, r => Gap(r, byLon, v));
  }

  /** `k` is the first masked index with the smallest value. */
  ghost predicate FirstMin(xs: seq<real>, mask: seq<bool>, k: int)
    requires |xs| == |mask|
  {
    0 <= k < |xs| && mask[k] && (forall j :: 0 <= j < |xs| && mask[j] ==> xs[k] <= xs[j]) &&
    (forall j :: 0 <= j < k && mask[j] ==> xs[k] < xs[j])
  }

  lemma FirstMinUnique(xs: seq<real>, mask: seq<bool>, a: int, b: int)
    requires |xs| == |mask| && FirstMin(xs, mask, a) && FirstMin(xs, mask, b)
    ensures a == b
  {
    assert xs[a] <= xs[b] && xs[b] <= xs[a];
    assert !(a < b) && !(b < a);
  }

  lemma ArgMinIsFirstMin(xs: seq<real>, mask: seq<bool>)
    requires |xs| == |mask| && CountTrue(mask) > 0
    ensures FirstMin(xs, mask, Where(mask)[ArgMin(Select(xs, mask))])
  {
    ArgMinOfSelect(xs, mask);
  }

  lemma FirstNearestIsFirstMin(table: seq<PixelRow>, b: Band, byLon: bool, v: real)
    requires Occupied(table, b, |table|)
    ensures FirstMin(Gaps(table, byLon, v), BandMask(table, b), FirstNearest(table, b, byLon, v, |table|))
  {
  }

  lemma FirstNearestIsArgMin(table: seq<PixelRow>, b: Band, byLon: bool, v: real)
    requires Occupied(table, b, |table|)
    ensures CountTrue(BandMask(table, b)) > 0
    ensures FirstNearest(table, b, byLon, v, |table|) ==
      Where(BandMask(table, b))[ArgMin(Gaps(Select(table, BandMask(table, b)), byLon, v))]
  {
    var m := BandMask(table, b);
    var j0 :| 0 <= j0 < |table| && InBand(table[j0], b);
    MaskNonEmpty(m, j0);
    var all := Gaps(table, byLon, v);
    GapsOfSelect(table, m, byLon, v);
    ArgMinIsFirstMin(all, m);
    FirstNearestIsFirstMin(table, b, byLon, v);
    FirstMinUnique(all, m, FirstNearest(table, b, byLon, v, |table|), Where(m)[ArgMin(Select(all, m))]);
  }

  /** One try of `lat_lon_to_pixel_xy`: the x pixel nearest in longitude
      within the reducing band, then the y pixel nearest in latitude within
      one x pixel of it. */
  method NearestPixel(table: seq<PixelRow>, red: Band, lon: real, lat: real) returns (px: int, py: int)
    requires Occupied(table, red, |table|)
    ensures px == TryX(table, red, lon) && py == TryY(table, px, lat)
    ensures PixelFound(table, lat, px, py)
  {
    px := TryX(table, red, lon);
    py := TryY(table, px, lat);
    TryYFound(table, red, lon, lat);
  }

  /** `lat_lon_to_pixel_xy`: `None` for an empty table, where `argmin` raises. */
  method LatLonToPixelXy(table: seq<PixelRow>, lon: real, lat: real) returns (r: Option<(int, int)>)
    ensures table == [] ==> r.None?
    ensures table != [] ==> Occupied(table, AllRows, |table|) && r == Some(Search(table, AllRows, lon, lat, 0, [], []))
  {
    if table == [] {
      return None;
    }
    OccupiedAt(table, AllRows, 0);
    ghost var goal := Search(table, AllRows, lon, lat, 0, [], []);
    var xs, ys: seq<int> := [], [];
    var red := AllRows;
    var stepInd: nat := 0;
    while true
      invariant stepInd < NumTries && |xs| == |ys| == stepInd && Occupied(table, red, |table|)
      invariant Search(table, red, lon, lat, stepInd, xs, ys) == goal
      decreases NumTries - stepInd
    {
      var px, py := NearestPixel(table, red, lon, lat);
      SearchStep(table, red, lon, lat, stepInd, xs, ys, px, py);
      xs, ys := xs + [px], ys + [py];
      if Stop(stepInd, xs, ys) {
        return Some((px, py));
      }
      red := NearY(py);
      stepInd := stepInd + 1;
    }
  }

  // ---------------------------------------------------------------------------
  // calibrate_energy

  /** `SPECTRAL_IRRADIANCE_TO_INTEGRATED_IRRADIANCE_M`. */
  const SpectralToIntegratedM: real := 0.00000116

  /** Python sequence indexing: negative indices count from the end. */
  function PyIndex(i: int, n: nat): (r: Option<nat>)
    ensures r.Some? <==> -(n as int) <= i < n
    ensures r.Some? ==> r.value < n && (r.value == i || r.value == i + n)
    ensures 0 <= i < n ==> r == Some(i as nat)
  {
    if 0 <= i < n then Some(i) else if -(n as int) <= i < 0 then Some(i + n) else None
  }

  /** The lookup-table value of a pixel; a zero (masked) value is replaced by
      the nearest unmasked value. `None` where the source raises: an index
      out of range, or a table with no unmasked cell. */
  function LookupValue(t: CalibrationHelpers.MaskedTable, px: int, py: int): (r: Option<real>)
    requires CalibrationHelpers.WellShaped(t)
    ensures (PyIndex(px, |t.data|).None?) ==> r.None?
  {
    match PyIndex(px, |t.data|)
    case None => None
    case Some(i) =>
      match PyIndex(py, |t.data[i]|)
      case None => None
      case Some(j) =>
        var v := t.data[i][j];
        if v == 0.0 then CalibrationHelpers.FindNearestUnmaskedValue(t, (px, py)) else Some(v)
  }

  /** The value read from cell `(i, j)`: the cell itself when it is
      non-zero, the nearest unmasked value to the pixel when it is zero. */
  predicate CellReading(t: CalibrationHelpers.MaskedTable, i: nat, j: nat, px: int, py: int, v: real)
    requires CalibrationHelpers.WellShaped(t)
  {
    i < |t.data| && j < |t.data[i]| &&
    ((t.data[i][j] != 0.0 && v == t.data[i][j]) ||
     (t.data[i][j] == 0.0 && Some(v) == CalibrationHelpers.FindNearestUnmaskedValue(t, (px, py))))
  }

  /** The conversion factor from energy to intensity: the
      spectral-to-integrated factor times the squared range from the
      satellite to the cloud top. */
  function RangeCoefficient(satPos: Vec3, cloudTop: Vec3): (c: real)
    ensures c >= 0.0
  {
    var n := NormSq(Sub(satPos, cloudTop));
    TwoNonNeg(SpectralToIntegratedM, n);
    SpectralToIntegratedM * n
  }

  /** A lookup value is read from a table cell the pixel indexes: the cell's
      own value when it is non-zero, otherwise the nearest unmasked value. */
  lemma LookupValueReads(t: CalibrationHelpers.MaskedTable, px: int, py: int)
    requires CalibrationHelpers.WellShaped(t)
    requires LookupValue(t, px, py).Some?
    ensures exists i: nat, j: nat :: (i == px || i == px + |t.data|) && CellReading(t, i, j, px, py, LookupValue(t, px, py).value)
  {
    var i := PyIndex(px, |t.data|).value;
    var j := PyIndex(py, |t.data[i]|).value;
    assert CellReading(t, i, j, px, py, LookupValue(t, px, py).value);
  }

  /** `calibrate_energy`: the range coefficient times the event energy and
      the lookup value. */
  function CalibrateEnergy(px: int, py: int, t: CalibrationHelpers.MaskedTable,
                           satPos: Vec3, cloudTop: Vec3, energy: real): (r: Option<real>)
    requires CalibrationHelpers.WellShaped(t)
    ensures r.Some? <==> LookupValue(t, px, py).Some?
    ensures r.Some? ==> r.value == RangeCoefficient(satPos, cloudTop) * energy * LookupValue(t, px, py).value
  {
    match LookupValue(t, px, py)
    case None => None
    case Some(lut) => Some(RangeCoefficient(satPos, cloudTop) * energy * lut)
  }

  /** Intensities are non-negative for non-negative energies and table values,
      and additive in the energy. */
  lemma CalibrationScales(px: int, py: int, t: CalibrationHelpers.MaskedTable, satPos: Vec3, cloudTop: Vec3, e1: real, e2: real)
    requires CalibrationHelpers.WellShaped(t)
    requires CalibrateEnergy(px, py, t, satPos, cloudTop, e1).Some?
    ensures CalibrateEnergy(px, py, t, satPos, cloudTop, e1 + e2).value ==
            CalibrateEnergy(px, py, t, satPos, cloudTop, e1).value + CalibrateEnergy(px, py, t, satPos, cloudTop, e2).value
    ensures 0.0 <= e1 && 0.0 <= LookupValue(t, px, py).value ==> CalibrateEnergy(px, py, t, satPos, cloudTop, e1).value >= 0.0
  {
    var a := RangeCoefficient(satPos, cloudTop);
    var lut := LookupValue(t, px, py).value;
    Distribute(a, e1, e2, lut);
    if 0.0 <= e1 && 0.0 <= lut {
      ProductNonNeg(a, e1, lut);
    }
  }

  lemma Distribute(a: real, b: real, c: real, l: real)
    ensures a * (b + c) * l == a * b * l + a * c * l
  {
  }

  lemma TwoNonNeg(a: real, b: real)
    requires a >= 0.0 && b >= 0.0
    ensures a * b >= 0.0
  {
    if a > 0.0 && b > 0.0 {
      MulPos(a, b);
    }
  }

  lemma ProductNonNeg(a: real, b: real, c: real)
    requires a >= 0.0 && b >= 0.0 && c >= 0.0
    ensures a * b * c >= 0.0
  {
    if a > 0.0 && b > 0.0 && c > 0.0 {
      MulPos(a, b);
      MulPos(a * b, c);
    }
  }
}
