/** `makePointSourceFilterQuery`: the SQL text and the parameter list for
    the point sources of one sighting under the viewer's filter. The text is
    modelled as the list of fragments it is appended from: fixed SQL
    pieces, text built at run time, and `$n` placeholders. Rendering the
    list gives the query string, and the placeholder numbering can be read
    off the list. The sighting id is `$1`; every argument pushed takes the
    next number from `$2` on. */
module PointSourceFilterHelpers {
  import opened Wrappers
  import opened RealMath
  import Text

  /** A query argument: a number or a string. */
  datatype Arg = Num(n: real) | Str(s: string)

  datatype Range = Range(enabled: bool, lo: Arg, hi: Arg)
  datatype Horizon = Horizon(enabled: bool, above: bool, below: bool)
  /** `None` is an undefined field; `Some(Str(..))` stands for any value that is not a number. */
  datatype Geo = Geo(enabled: bool, lat: Option<Arg>, lon: Option<Arg>, alt: Option<Arg>, radius: Option<Arg>)
  datatype Tags = Tags(enabled: bool, tags: seq<string>)
  datatype PointSourceFilter = PointSourceFilter(clusterSize: Range, horizon: Horizon, intensity: Range,
                                                 time: Range, geo: Geo, tags: Tags)

  /** The columns a range filter applies to. */
  datatype Column = ClusterSize | Intensity | Time

  function ColumnName(c: Column): string {
    match c
    case ClusterSize => "cluster_size"
    case Intensity => "intensity"
    case Time => "time"
  }

  /** The fixed pieces of SQL text. */
  datatype Sql = SelectSightingPoints | AtLeast(c: Column) | AtMost(c: Column) | Space | AboveHorizon | BelowHorizon
               | GeoOpen | GeoClose | TagsOpen | Comma | TagsClose | OrderByTime

  function SqlText(k: Sql): string {
    match k
    case SelectSightingPoints =>
      "\n    select tag, ps.point_source_id, time, intensity, cluster_size, meas_near_point_ecef_m, meas_far_point_ecef_m, above_horizon, sensor_id"
      + "\n    from starfall_db_schema.point_sources ps"
      + "\n    inner join starfall_db_schema.sightings s on s.sighting_id = ps.sighting_id"
      + "\n    inner join starfall_db_schema.tags on tags.point_source_id = ps.point_source_id"
      + "\n    where ps.sighting_id = $1"
    case AtLeast(c) => " and " + ColumnName(c) + " >= "
    case AtMost(c) => " and " + ColumnName(c) + " <= "
    case Space => " "
    case AboveHorizon => " and above_horizon = true "
    case BelowHorizon => " and above_horizon = false "
    case GeoOpen => " and ST_3DDWithin(los_points_geom, ST_GeomFromEWKT('SRID=4978;POINT("
    case GeoClose => ")'),"
    case TagsOpen => " and tag in ("
    case Comma => ","
    case TagsClose => ") "
    case OrderByTime => " order by time"
  }

  datatype Frag = Fixed(k: Sql) | Text(text: string) | Param(n: nat)

  function RenderFrag(f: Frag): string {
    match f
    case Fixed(k) => SqlText(k)
    case Text(t) => t
    case Param(n) => "$" + Text.NatToString(n)
  }

  /** The text of a fragment list. */
  function Render(fs: seq<Frag>): string {
    if fs == [] then "" else Render(fs[..|fs| - 1]) + RenderFrag(fs[|fs| - 1])
  }

  /** The placeholder numbers of a fragment list, in text order. */
  function Params(fs: seq<Frag>): seq<nat> {
    if fs == [] then [] else Params(fs[..|fs| - 1]) + (if fs[|fs| - 1].Param? then [fs[|fs| - 1].n] else [])
  }

  /** `start, start + 1, …, start + n - 1`. */
  function Consecutive(start: nat, n: nat): (r: seq<nat>)
    ensures |r| == n && forall i :: 0 <= i < n ==> r[i] == start + i
  {
    seq(n, i requires 0 <= i < n => start + i)
  }

  lemma Assoc<T>(x: seq<T>, y: seq<T>, z: seq<T>)
    ensures x + y + z == x + (y + z)
  {
  }

  lemma AssocSix<T>(x: seq<T>, a: seq<T>, b: seq<T>, c: seq<T>, d: seq<T>, e: seq<T>, g: seq<T>)
    ensures x + a + b + c + d + e + g == x + (a + b + c + d + e + g)
  {
  }

  /** The text of two lists one after the other is the two texts one after
      the other. */
  lemma {:induction false} RenderConcat(a: seq<Frag>, b: seq<Frag>)
    ensures Render(a + b) == Render(a) + Render(b)
    decreases |b|
  {
    if b == [] {
      assert a + b == a;
    } else {
      var n := |b| - 1;
      assert (a + b)[..|a + b| - 1] == a + b[..n] && (a + b)[|a + b| - 1] == b[n];
      RenderConcat(a, b[..n]);
      Assoc(Render(a), Render(b[..n]), RenderFrag(b[n]));
    }
  }

  lemma {:induction false} ParamsConcat(a: seq<Frag>, b: seq<Frag>)
    ensures Params(a + b) == Params(a) + Params(b)
    decreases |b|
  {
    if b == [] {
      assert a + b == a;
    } else {
      var n := |b| - 1;
      assert (a + b)[..|a + b| - 1] == a + b[..n] && (a + b)[|a + b| - 1] == b[n];
      ParamsConcat(a, b[..n]);
      Assoc(Params(a), Params(b[..n]), if b[n].Param? then [b[n].n] else []);
    }
  }

  lemma ParamsSnoc(fs: seq<Frag>, x: Frag)
    ensures Params(fs + [x]) == Params(fs) + (if x.Param? then [x.n] else [])
  {
    assert (fs + [x])[..|fs|] == fs;
  }

  // ---------------------------------------------------------------------
  // the clauses, each the list of fragments it appends

  /** The columns' two bounds, with placeholders `next` and `next + 1`. */
  function RangeFrags(column: Column, r: Range, next: nat): seq<Frag> {
    if r.enabled then
      [Fixed(AtLeast(column)), Param(next), Fixed(Space)] + [Fixed(AtMost(column)), Param(next + 1), Fixed(Space)]
    else []
  }

  function RangeArgs(r: Range): (a: seq<Arg>)
    ensures |a| == if r.enabled then 2 else 0
  {
    if r.enabled then [r.lo, r.hi] else []
  }

  /** The horizon test is added only when exactly one of above and below is set. */
  function HorizonFrags(h: Horizon): seq<Frag> {
    if !h.enabled then []
    else if h.above && !h.below then [Fixed(AboveHorizon)]
    else if !h.above && h.below then [Fixed(BelowHorizon)]
    else []
  }

  /** All four geo fields are numbers. */
  predicate GeoNumbers(g: Geo) {
    g.lat.Some? && g.lat.value.Num? && g.lon.Some? && g.lon.value.Num? &&
    g.alt.Some? && g.alt.value.Num? && g.radius.Some? && g.radius.value.Num?
  }

  /** The search sphere around the projected point, with the point and the
      radius written into the text rather than passed as arguments. */
  function GeoFrags(g: Geo, project: (real, real, real) -> Vec3, numText: real -> string): seq<Frag> {
    if g.enabled && GeoNumbers(g) then
      var p := project(g.lat.value.n, g.lon.value.n, g.alt.value.n);
      [Fixed(GeoOpen), Text(numText(p.x) + " " + numText(p.y) + " " + numText(p.z)), Fixed(GeoClose),
       Text(numText(g.radius.value.n) + ")")]
    else []
  }

  predicate TagsApply(t: Tags) {
    t.enabled && |t.tags| > 0
  }

  /** `$start,$start+1,…`: one placeholder per tag, separated by commas. */
  function TagPlaceholders(start: nat, n: nat): seq<Frag>
    decreases n
  {
    if n == 0 then []
    else TagPlaceholders(start, n - 1) + (if n > 1 then [Fixed(Comma)] else []) + [Param(start + n - 1)]
  }

  function TagsFrags(t: Tags, next: nat): seq<Frag> {
    if TagsApply(t) then [Fixed(TagsOpen)] + TagPlaceholders(next, |t.tags|) + [Fixed(TagsClose)] else []
  }

  /** Each tag as a string argument. */
  function Strs(tags: seq<string>): (r: seq<Arg>)
    ensures |r| == |tags| && forall i :: 0 <= i < |tags| ==> r[i] == Str(tags[i])
  {
    if tags == [] then [] else Strs(tags[..|tags| - 1]) + [Str(tags[|tags| - 1])]
  }

  function TagArgs(t: Tags): (r: seq<Arg>)
    ensures |r| == if TagsApply(t) then |t.tags| else 0
  {
    if TagsApply(t) then Strs(t.tags) else []
  }

  // ---------------------------------------------------------------------
  // the whole query

  /** The arguments, in the order they are pushed: the cluster size,
      intensity and time bounds, then the tags. */
  function Args(f: PointSourceFilter): seq<Arg> {
    RangeArgs(f.clusterSize) + RangeArgs(f.intensity) + RangeArgs(f.time) + TagArgs(f.tags)
  }

  /** The clauses one after the other, each numbering its placeholders from
      two more than the number of arguments pushed before it. */
  function Clauses(f: PointSourceFilter, project: (real, real, real) -> Vec3, numText: real -> string): seq<Frag> {
    var n1 := 2 + |RangeArgs(f.clusterSize)|;
    var n2 := n1 + |RangeArgs(f.intensity)|;
    var n3 := n2 + |RangeArgs(f.time)|;
    RangeFrags(ClusterSize, f.clusterSize, 2) + HorizonFrags(f.horizon) + RangeFrags(Intensity, f.intensity, n1) +
    RangeFrags(Time, f.time, n2) + GeoFrags(f.geo, project, numText) + TagsFrags(f.tags, n3)
  }

  /** The fragments of the whole query: the head, whose `$1` is the sighting
      id, the clauses numbered from `$2`, and the order. */
  function Parts(f: PointSourceFilter, project: (real, real, real) -> Vec3, numText: real -> string): seq<Frag> {
    [Fixed(SelectSightingPoints)] + Clauses(f, project, numText) + [Fixed(OrderByTime)]
  }

  // ---------------------------------------------------------------------
  // properties of the query

  /** Two runs of consecutive numbers, the second starting where the first ends. */
  lemma ConsecutiveConcat(start: nat, n: nat, m: nat)
    ensures Consecutive(start, n) + Consecutive(start + n, m) == Consecutive(start, n + m)
  {
  }

  /** A range clause numbers its two placeholders from `next`. */
  lemma ParamsRange(column: Column, r: Range, next: nat)
    ensures Params(RangeFrags(column, r, next)) == Consecutive(next, |RangeArgs(r)|)
  {
    if r.enabled {
      var a, b := [Fixed(AtLeast(column)), Param(next), Fixed(Space)], [Fixed(AtMost(column)), Param(next + 1), Fixed(Space)];
      ParamsConcat(a, b);
      assert a == [Fixed(AtLeast(column))] + [Param(next)] + [Fixed(Space)];
      assert b == [Fixed(AtMost(column))] + [Param(next + 1)] + [Fixed(Space)];
      ParamsSnoc([], Fixed(AtLeast(column)));
      ParamsSnoc([Fixed(AtLeast(column))], Param(next));
      ParamsSnoc([Fixed(AtLeast(column))] + [Param(next)], Fixed(Space));
      ParamsSnoc([], Fixed(AtMost(column)));
      ParamsSnoc([Fixed(AtMost(column))], Param(next + 1));
      ParamsSnoc([Fixed(AtMost(column))] + [Param(next + 1)], Fixed(Space));
    }
  }

  lemma {:induction false} ParamsTagPlaceholders(start: nat, n: nat)
    ensures Params(TagPlaceholders(start, n)) == Consecutive(start, n)
    decreases n
  {
    if n > 0 {
      var p := TagPlaceholders(start, n - 1);
      ParamsTagPlaceholders(start, n - 1);
      var q := p + (if n > 1 then [Fixed(Comma)] else []);
      if n > 1 {
        ParamsSnoc(p, Fixed(Comma));
      } else {
        assert q == p;
      }
      ParamsSnoc(q, Param(start + n - 1));
      assert TagPlaceholders(start, n) == q + [Param(start + n - 1)];
      ConsecutiveSnoc(start, n - 1);
    }
  }

  lemma ConsecutiveSnoc(start: nat, n: nat)
    ensures Consecutive(start, n) + [start + n] == Consecutive(start, n + 1)
  {
  }

  lemma ParamsTags(t: Tags, next: nat)
    ensures Params(TagsFrags(t, next)) == Consecutive(next, |TagArgs(t)|)
  {
    if TagsApply(t) {
      var p := TagPlaceholders(next, |t.tags|);
      ParamsTagPlaceholders(next, |t.tags|);
      ParamsConcat([Fixed(TagsOpen)], p);
      ParamsConcat([Fixed(TagsOpen)] + p, [Fixed(TagsClose)]);
      ParamsSnoc([], Fixed(TagsOpen));
      ParamsSnoc([], Fixed(TagsClose));
    }
  }

  lemma ParamsHorizon(h: Horizon)
    ensures Params(HorizonFrags(h)) == []
  {
    ParamsSnoc([], Fixed(AboveHorizon));
    ParamsSnoc([], Fixed(BelowHorizon));
  }

  lemma ParamsGeo(g: Geo, project: (real, real, real) -> Vec3, numText: real -> string)
    ensures Params(GeoFrags(g, project, numText)) == []
  {
    var fs := GeoFrags(g, project, numText);
    if fs != [] {
      assert fs == [fs[0]] + [fs[1]] + [fs[2]] + [fs[3]];
      ParamsSnoc([], fs[0]);
      ParamsSnoc([fs[0]], fs[1]);
      ParamsSnoc([fs[0]] + [fs[1]], fs[2]);
      ParamsSnoc([fs[0]] + [fs[1]] + [fs[2]], fs[3]);
    }
  }

  /** Three lists numbered one after the other from `start`. */
  lemma {:induction false} ParamsThree(a: seq<Frag>, b: seq<Frag>, c: seq<Frag>, start: nat, m: nat, n: nat, o: nat)
    requires Params(a) == Consecutive(start, m) && Params(b) == Consecutive(start + m, n)
    requires Params(c) == Consecutive(start + m + n, o)
    ensures Params(a + b + c) == Consecutive(start, m + n + o)
  {
    ParamsConcat(a, b);
    ConsecutiveConcat(start, m, n);
    ParamsConcat(a + b, c);
    ConsecutiveConcat(start, m + n, o);
  }

  /** Six clauses numbered one after the other. */
  lemma {:induction false} ParamsSix(r1: seq<Frag>, h: seq<Frag>, r2: seq<Frag>, r3: seq<Frag>, ge: seq<Frag>, tg: seq<Frag>,
                                     c: nat, i: nat, t: nat, g: nat)
    requires Params(r1) == Consecutive(2, c) && Params(h) == [] && Params(r2) == Consecutive(2 + c, i)
    requires Params(r3) == Consecutive(2 + c + i, t) && Params(ge) == [] && Params(tg) == Consecutive(2 + c + i + t, g)
    ensures Params(r1 + h + r2 + r3 + ge + tg) == Consecutive(2, c + i + t + g)
  {
    assert Params(h) == Consecutive(2 + c, 0);
    ParamsThree(r1, h, r2, 2, c, 0, i);
    assert Params(ge) == Consecutive(2 + c + i + t, 0);
    ParamsThree(r1 + h + r2, r3, ge, 2, c + i, t, 0);
    ParamsConcat(r1 + h + r2 + r3 + ge, tg);
    ConsecutiveConcat(2, c + i + t, g);
  }

  /** The clauses number their placeholders `$2`, `$3`, … in text order, one
      per argument pushed. */
  lemma {:induction false} ParamsClauses(f: PointSourceFilter, project: (real, real, real) -> Vec3,
                                         numText: real -> string)
    ensures Params(Clauses(f, project, numText)) == Consecutive(2, |Args(f)|)
  {
    var c, i, t, g := |RangeArgs(f.clusterSize)|, |RangeArgs(f.intensity)|, |RangeArgs(f.time)|, |TagArgs(f.tags)|;
    ParamsRange(ClusterSize, f.clusterSize, 2);
    ParamsHorizon(f.horizon);
    ParamsRange(Intensity, f.intensity, 2 + c);
    ParamsRange(Time, f.time, 2 + c + i);
    ParamsGeo(f.geo, project, numText);
    ParamsTags(f.tags, 2 + c + i + t);
    ParamsSix(RangeFrags(ClusterSize, f.clusterSize, 2), HorizonFrags(f.horizon), RangeFrags(Intensity, f.intensity, 2 + c),
              RangeFrags(Time, f.time, 2 + c + i), GeoFrags(f.geo, project, numText), TagsFrags(f.tags, 2 + c + i + t),
              c, i, t, g);
  }

  /** The placeholders of the query are `$2`, `$3`, … in text order, one per
      argument pushed, so the `k`-th argument is bound to `$(k + 2)` (the
      sighting id, `$1`, is part of the head). */
  lemma {:induction false} PlaceholdersConsecutive(f: PointSourceFilter, project: (real, real, real) -> Vec3,
                                                   numText: real -> string)
    ensures Params(Parts(f, project, numText)) == Consecutive(2, |Args(f)|)
  {
    var c := Clauses(f, project, numText);
    ParamsClauses(f, project, numText);
    ParamsConcat([Fixed(SelectSightingPoints)], c);
    ParamsConcat([Fixed(SelectSightingPoints)] + c, [Fixed(OrderByTime)]);
    ParamsSnoc([], Fixed(SelectSightingPoints));
    ParamsSnoc([], Fixed(OrderByTime));
  }

  lemma {:induction false} TagPlaceholdersFixed(start: nat, n: nat, k: Sql)
    ensures Fixed(k) in TagPlaceholders(start, n) <==> k == Comma && n > 1
    decreases n
  {
    if n > 0 {
      TagPlaceholdersFixed(start, n - 1, k);
    }
  }

  /** The range filter on a column. */
  function RangeOf(f: PointSourceFilter, c: Column): Range {
    match c
    case ClusterSize => f.clusterSize
    case Intensity => f.intensity
    case Time => f.time
  }

  /** The fixed pieces the filter asks for: a column's bounds when its range
      is enabled, the horizon test when exactly one of above and below is
      set, the sphere when all four geo fields are numbers, and the tag
      list, with commas between two or more tags, when tags are enabled and
      not empty. */
  predicate Requested(f: PointSourceFilter, k: Sql) {
    match k
    case SelectSightingPoints => false
    case OrderByTime => false
    case AtLeast(c) => RangeOf(f, c).enabled
    case AtMost(c) => RangeOf(f, c).enabled
    case Space => f.clusterSize.enabled || f.intensity.enabled || f.time.enabled
    case AboveHorizon => f.horizon.enabled && f.horizon.above && !f.horizon.below
    case BelowHorizon => f.horizon.enabled && !f.horizon.above && f.horizon.below
    case GeoOpen => f.geo.enabled && GeoNumbers(f.geo)
    case GeoClose => f.geo.enabled && GeoNumbers(f.geo)
    case TagsOpen => TagsApply(f.tags)
    case TagsClose => TagsApply(f.tags)
    case Comma => TagsApply(f.tags) && |f.tags.tags| > 1
  }

  lemma RangeFixed(column: Column, r: Range, next: nat, k: Sql)
    ensures Fixed(k) in RangeFrags(column, r, next) <==> r.enabled && (k == AtLeast(column) || k == AtMost(column) || k == Space)
  {
  }

  lemma GeoFixed(g: Geo, project: (real, real, real) -> Vec3, numText: real -> string, k: Sql)
    ensures Fixed(k) in GeoFrags(g, project, numText) <==> g.enabled && GeoNumbers(g) && (k == GeoOpen || k == GeoClose)
  {
  }

  lemma TagsFixed(t: Tags, next: nat, k: Sql)
    ensures Fixed(k) in TagsFrags(t, next) <==> TagsApply(t) && (k == TagsOpen || k == TagsClose || (k == Comma && |t.tags| > 1))
  {
    if TagsApply(t) {
      TagPlaceholdersFixed(next, |t.tags|, k);
    }
  }

  lemma InSix<T>(x: T, a: seq<T>, b: seq<T>, c: seq<T>, d: seq<T>, e: seq<T>, g: seq<T>)
    ensures x in a + b + c + d + e + g <==> x in a || x in b || x in c || x in d || x in e || x in g
  {
  }

  /** What each clause adds, clause by clause. */
  lemma RequestedCases(f: PointSourceFilter, k: Sql)
    ensures Requested(f, k) <==>
      (f.clusterSize.enabled && (k == AtLeast(ClusterSize) || k == AtMost(ClusterSize) || k == Space)) ||
      Fixed(k) in HorizonFrags(f.horizon) ||
      (f.intensity.enabled && (k == AtLeast(Intensity) || k == AtMost(Intensity) || k == Space)) ||
      (f.time.enabled && (k == AtLeast(Time) || k == AtMost(Time) || k == Space)) ||
      (f.geo.enabled && GeoNumbers(f.geo) && (k == GeoOpen || k == GeoClose)) ||
      (TagsApply(f.tags) && (k == TagsOpen || k == TagsClose || (k == Comma && |f.tags.tags| > 1)))
  {
  }

  /** A fixed piece is in the clauses when it is in one of them. */
  lemma ClausesMembership(f: PointSourceFilter, project: (real, real, real) -> Vec3, numText: real -> string, k: Sql)
    ensures var c, i, t := |RangeArgs(f.clusterSize)|, |RangeArgs(f.intensity)|, |RangeArgs(f.time)|;
      Fixed(k) in Clauses(f, project, numText) <==>
        Fixed(k) in RangeFrags(ClusterSize, f.clusterSize, 2) || Fixed(k) in HorizonFrags(f.horizon) ||
        Fixed(k) in RangeFrags(Intensity, f.intensity, 2 + c) || Fixed(k) in RangeFrags(Time, f.time, 2 + c + i) ||
        Fixed(k) in GeoFrags(f.geo, project, numText) || Fixed(k) in TagsFrags(f.tags, 2 + c + i + t)
  {
    var c, i, t := |RangeArgs(f.clusterSize)|, |RangeArgs(f.intensity)|, |RangeArgs(f.time)|;
    var r1, h := RangeFrags(ClusterSize, f.clusterSize, 2), HorizonFrags(f.horizon);
    var r2, r3 := RangeFrags(Intensity, f.intensity, 2 + c), RangeFrags(Time, f.time, 2 + c + i);
    var ge, tg := GeoFrags(f.geo, project, numText), TagsFrags(f.tags, 2 + c + i + t);
    assert Clauses(f, project, numText) == r1 + h + r2 + r3 + ge + tg;
    InSix(Fixed(k), r1, h, r2, r3, ge, tg);
  }

  /** The fixed pieces of the clauses, clause by clause. */
  lemma {:induction false} ClausesFixedCases(f: PointSourceFilter, project: (real, real, real) -> Vec3,
                                             numText: real -> string, k: Sql)
    ensures Fixed(k) in Clauses(f, project, numText) <==>
      (f.clusterSize.enabled && (k == AtLeast(ClusterSize) || k == AtMost(ClusterSize) || k == Space)) ||
      Fixed(k) in HorizonFrags(f.horizon) ||
      (f.intensity.enabled && (k == AtLeast(Intensity) || k == AtMost(Intensity) || k == Space)) ||
      (f.time.enabled && (k == AtLeast(Time) || k == AtMost(Time) || k == Space)) ||
      (f.geo.enabled && GeoNumbers(f.geo) && (k == GeoOpen || k == GeoClose)) ||
      (TagsApply(f.tags) && (k == TagsOpen || k == TagsClose || (k == Comma && |f.tags.tags| > 1)))
  {
    var c, i, t := |RangeArgs(f.clusterSize)|, |RangeArgs(f.intensity)|, |RangeArgs(f.time)|;
    ClausesMembership(f, project, numText, k);
    RangeFixed(ClusterSize, f.clusterSize, 2, k);
    RangeFixed(Intensity, f.intensity, 2 + c, k);
    RangeFixed(Time, f.time, 2 + c + i, k);
    GeoFixed(f.geo, project, numText, k);
    TagsFixed(f.tags, 2 + c + i + t, k);
  }

  /** The clauses hold exactly the fixed pieces the filter asks for. */
  lemma {:induction false} ClausesFixed(f: PointSourceFilter, project: (real, real, real) -> Vec3,
                                        numText: real -> string, k: Sql)
    ensures Fixed(k) in Clauses(f, project, numText) <==> Requested(f, k)
  {
    ClausesFixedCases(f, project, numText, k);
    RequestedCases(f, k);
  }

  /** Each fixed piece is in the query exactly when the filter asks for it;
      the head and the order by time always are. */
  lemma {:induction false} FixedPieces(f: PointSourceFilter, project: (real, real, real) -> Vec3,
                                       numText: real -> string, k: Sql)
    ensures Fixed(k) in Parts(f, project, numText) <==> k == SelectSightingPoints || k == OrderByTime || Requested(f, k)
  {
    ClausesFixed(f, project, numText, k);
  }

  /** With every filter off, the query is the head and the order alone, and
      there is no argument besides the sighting id. */
  lemma NoFilters(f: PointSourceFilter, project: (real, real, real) -> Vec3, numText: real -> string)
    requires !f.clusterSize.enabled && !f.horizon.enabled && !f.intensity.enabled && !f.time.enabled
    requires !f.geo.enabled && !f.tags.enabled
    ensures Parts(f, project, numText) == [Fixed(SelectSightingPoints), Fixed(OrderByTime)] && Args(f) == []
  {
  }

  /** The query always ends with the ordering by time. */
  lemma EndsWithOrder(f: PointSourceFilter, project: (real, real, real) -> Vec3, numText: real -> string)
    ensures var q, o := Render(Parts(f, project, numText)), SqlText(OrderByTime);
      |q| >= |o| && q[|q| - |o|..] == o
  {
    var c := Clauses(f, project, numText);
    RenderConcat([Fixed(SelectSightingPoints)] + c, [Fixed(OrderByTime)]);
    assert Render([Fixed(OrderByTime)]) == SqlText(OrderByTime) by {
      assert [Fixed(OrderByTime)][..0] == [];
    }
  }

  // ---------------------------------------------------------------------
  // building the query

  /** `query += text`: the text of some fragments. */
  method Append(query: string, ghost fs: seq<Frag>, xs: seq<Frag>) returns (q: string, ghost fs': seq<Frag>)
    requires query == Render(fs)
    ensures q == query + Render(xs)
    ensures q == Render(fs') && fs' == fs + xs
  {
    q := query + Render(xs);
    fs' := fs + xs;
    RenderConcat(fs, xs);
  }

  /** One bound: the comparison with a placeholder numbered from the
      current argument count, then the value pushed. */
  method AppendBound(query: string, args: seq<Arg>, ghost fs: seq<Frag>, op: Sql, v: Arg)
    returns (q: string, a: seq<Arg>, ghost fs': seq<Frag>)
    requires query == Render(fs)
    ensures q == Render(fs') && fs' == fs + [Fixed(op), Param(|args| + 2), Fixed(Space)] && a == args + [v]
  {
    q, fs' := Append(query, fs, [Fixed(op), Param(|args| + 2), Fixed(Space)]);
    a := args + [v];
  }

  /** The two bounds of a range, each pushed after its placeholder is
      numbered from the current argument count. */
  method AppendRange(query: string, args: seq<Arg>, ghost fs: seq<Frag>, column: Column, r: Range)
    returns (q: string, a: seq<Arg>, ghost fs': seq<Frag>)
    requires query == Render(fs)
    ensures q == Render(fs') && fs' == fs + RangeFrags(column, r, |args| + 2) && a == args + RangeArgs(r)
  {
    q, a, fs' := query, args, fs;
    if r.enabled {
      q, a, fs' := AppendBound(q, a, fs', AtLeast(column), r.lo);
      q, a, fs' := AppendBound(q, a, fs', AtMost(column), r.hi);
      Assoc(fs, [Fixed(AtLeast(column)), Param(|args| + 2), Fixed(Space)], [Fixed(AtMost(column)), Param(|args| + 3), Fixed(Space)]);
      Assoc(args, [r.lo], [r.hi]);
    }
  }

  /** The horizon test, when exactly one of above and below is set. */
  method AppendHorizon(query: string, ghost fs: seq<Frag>, h: Horizon) returns (q: string, ghost fs': seq<Frag>)
    requires query == Render(fs)
    ensures q == query + Render(HorizonFrags(h))
    ensures q == Render(fs') && fs' == fs + HorizonFrags(h)
  {
    RenderConcat(fs, HorizonFrags(h));
    q, fs' := query, fs;
    if h.enabled {
      if h.above && !h.below {
        q, fs' := Append(q, fs', [Fixed(AboveHorizon)]);
      } else if !h.above && h.below {
        q, fs' := Append(q, fs', [Fixed(BelowHorizon)]);
      }
    }
  }

  /** The geo clause, when all four fields are numbers; otherwise a warning
      is logged and nothing is added. */
  method AppendGeo(query: string, ghost fs: seq<Frag>, g: Geo, project: (real, real, real) -> Vec3, numText: real -> string)
    returns (q: string, ghost fs': seq<Frag>)
    requires query == Render(fs)
    ensures q == query + Render(GeoFrags(g, project, numText))
    ensures q == Render(fs') && fs' == fs + GeoFrags(g, project, numText)
  {
    RenderConcat(fs, GeoFrags(g, project, numText));
    q, fs' := query, fs;
    if g.enabled {
      if g.lat.None? || g.lon.None? || g.alt.None? {
        // a warning is logged
      } else if !GeoNumbers(g) {
        // a warning is logged
      } else {
        var p := project(g.lat.value.n, g.lon.value.n, g.alt.value.n);
        q, fs' := Append(q, fs', [Fixed(GeoOpen), Text(numText(p.x) + " " + numText(p.y) + " " + numText(p.z)),
                                  Fixed(GeoClose), Text(numText(g.radius.value.n) + ")")]);
      }
    }
  }

  /** The tags clause, when enabled and not empty, with one placeholder per
      tag; the tags are pushed after it. */
  method AppendTags(query: string, args: seq<Arg>, ghost fs: seq<Frag>, t: Tags)
    returns (q: string, a: seq<Arg>, ghost fs': seq<Frag>)
    requires query == Render(fs)
    ensures q == Render(fs') && fs' == fs + TagsFrags(t, |args| + 2) && a == args + TagArgs(t)
  {
    q, a, fs' := query, args, fs;
    if TagsApply(t) {
      q, fs' := Append(q, fs', [Fixed(TagsOpen)] + TagPlaceholders(|a| + 2, |t.tags|) + [Fixed(TagsClose)]);
      a := a + TagArgs(t);
    }
  }

  /** All the clauses, in the order `makePointSourceFilterQuery` adds them. */
  method AppendClauses(query: string, ghost fs: seq<Frag>, f: PointSourceFilter,
                       project: (real, real, real) -> Vec3, numText: real -> string)
    returns (q: string, args: seq<Arg>, ghost fs': seq<Frag>)
    requires query == Render(fs)
    ensures q == Render(fs') && fs' == fs + Clauses(f, project, numText) && args == Args(f)
  {
    ghost var n1 := 2 + |RangeArgs(f.clusterSize)|;
    ghost var n2 := n1 + |RangeArgs(f.intensity)|;
    ghost var n3 := n2 + |RangeArgs(f.time)|;
    ghost var r1, h := RangeFrags(ClusterSize, f.clusterSize, 2), HorizonFrags(f.horizon);
    ghost var r2, r3 := RangeFrags(Intensity, f.intensity, n1), RangeFrags(Time, f.time, n2);
    ghost var ge, tg := GeoFrags(f.geo, project, numText), TagsFrags(f.tags, n3);
    var none: seq<Arg> := [];
    assert |none| + 2 == 2;
    q, args, fs' := AppendRange(query, none, fs, ClusterSize, f.clusterSize);
    assert fs' == fs + r1;
    assert args == RangeArgs(f.clusterSize);
    q, fs' := AppendHorizon(q, fs', f.horizon);
    assert |args| + 2 == n1;
    q, args, fs' := AppendRange(q, args, fs', Intensity, f.intensity);
    assert fs' == fs + r1 + h + r2;
    assert |args| + 2 == n2;
    q, args, fs' := AppendRange(q, args, fs', Time, f.time);
    assert fs' == fs + r1 + h + r2 + r3;
    q, fs' := AppendGeo(q, fs', f.geo, project, numText);
    assert |args| + 2 == n3;
    q, args, fs' := AppendTags(q, args, fs', f.tags);
    assert fs' == fs + r1 + h + r2 + r3 + ge + tg;
    AssocSix(fs, r1, h, r2, r3, ge, tg);
    assert Clauses(f, project, numText) == r1 + h + r2 + r3 + ge + tg;
  }

  /** `makePointSourceFilterQuery`: appends to the query and pushes onto the
      argument list clause by clause, numbering each placeholder from the
      current argument count. */
  method MakePointSourceFilterQuery(f: PointSourceFilter, project: (real, real, real) -> Vec3, numText: real -> string)
    returns (query: string, args: seq<Arg>)
    ensures query == Render(Parts(f, project, numText)) && args == Args(f)
  {
    ghost var fs: seq<Frag>;
    query, fs := Append("", [], [Fixed(SelectSightingPoints)]);
    assert fs == [Fixed(SelectSightingPoints)];
    query, args, fs := AppendClauses(query, fs, f, project, numText);
    query, fs := Append(query, fs, [Fixed(OrderByTime)]);
  }
}
