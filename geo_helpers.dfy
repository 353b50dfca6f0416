/** Geometry helpers of the trigger generator: longitude wrapping and the
    closest points of two segments. The trig-based conversions between
    geodetic and ECEF coordinates are not part of this module. */
module GeoHelpers {
  import opened RealMath

  /** Differences below this are treated as zero. */
  const Epsilon: real := 0.00000001

  // ---------------------------------------------------------------------
  // wrap_longitudes

  /** `wrap_longitudes` as written: `((x + upper) % 360) + (upper - 360)`. */
  function WrapLongitudesAsWritten(x: real, upper: real): (r: real)
    ensures upper - 360.0 <= r < upper
  {
    PyMod(x + upper, 360.0) + (upper - 360.0)
  }

  /** With upper = 90 the longitude 0 becomes -180, a different meridian, and a
      second application moves it again. */
  lemma WrapLongitudesAsWrittenCounterexample()
    ensures WrapLongitudesAsWritten(0.0, 90.0) == -180.0
    ensures WrapLongitudesAsWritten(-180.0, 90.0) == 0.0
    ensures PyMod(WrapLongitudesAsWritten(0.0, 90.0), 360.0) != PyMod(0.0, 360.0)
  {
    PyModUnique(90.0, 360.0, 90.0, 0);
    PyModUnique(-90.0, 360.0, 270.0, -1);
    PyModUnique(-180.0, 360.0, 180.0, -1);
    PyModUnique(0.0, 360.0, 0.0, 0);
  }

  /** Longitude wrapping into [upper - 360, upper): the offset is taken from the
      lower end of the window, so the longitude keeps its value modulo 360. */
  function WrapLongitudes(x: real, upper: real): (r: real)
    ensures upper - 360.0 <= r < upper
    ensures PyMod(r, 360.0) == PyMod(x, 360.0)
  {
    var lower := upper - 360.0;
    ModShift(x - lower, lower, 360.0);
    PyMod(x - lower, 360.0) + lower
  }

  /** Taking a remainder first and adding `c` afterwards leaves the same remainder. */
  lemma ModShift(y: real, c: real, m: real)
    requires m > 0.0
    ensures PyMod(PyMod(y, m) + c, m) == PyMod(y + c, m)
  {
    var q := (y / m).Floor;
    var z := y + c;
    assert PyMod(y, m) + c == z + (-q) as real * m;
    PyModPeriodic(z, m, -q);
    assert PyMod(z + (-q) as real * m, m) == PyMod(z, m);
  }

  /** A longitude already inside the window is left alone. */
  lemma WrapLongitudesInside(x: real, upper: real)
    requires upper - 360.0 <= x < upper
    ensures WrapLongitudes(x, upper) == x
  {
    PyModUnique(x - (upper - 360.0), 360.0, x - (upper - 360.0), 0);
  }

  /** Wrapping twice is wrapping once. */
  lemma WrapLongitudesIdempotent(x: real, upper: real)
    ensures WrapLongitudes(WrapLongitudes(x, upper), upper) == WrapLongitudes(x, upper)
  {
    WrapLongitudesInside(WrapLongitudes(x, upper), upper);
  }

  /** For the windows the program uses, upper = 0 and upper = 180, the code as
      written computes the correct wrap. */
  lemma WrapLongitudesAsWrittenAgrees(x: real, upper: real)
    requires upper == 0.0 || upper == 180.0
    ensures WrapLongitudesAsWritten(x, upper) == WrapLongitudes(x, upper)
  {
    if upper == 0.0 {
      PyModPeriodic(x, 360.0, 1);
      assert x - (upper - 360.0) == x + 1 as real * 360.0;
    }
  }

  // ---------------------------------------------------------------------
  // dist3d_segment_to_segment

  /** `x` lies on the segment from `a` to `b`. */
  ghost predicate OnSegment(x: Vec3, a: Vec3, b: Vec3)
  {
    exists s: real :: 0.0 <= s <= 1.0 && x == Add(a, Scale(s, Sub(b, a)))
  }

  /** The clamped numerators and denominators of the two line parameters. */
  datatype Fractions = Fractions(sn: real, sd: real, tn: real, td: real)

  /** A fraction n/d with 0 <= n <= d; when d is 0 so is n. */
  predicate Proper(n: real, d: real)
  {
    0.0 <= n <= d && (d == 0.0 ==> n == 0.0)
  }

  /** The Gram determinant a c - b^2 of the two direction vectors; near zero when they are parallel. */
  function Gram(a: real, b: real, c: real): real
  {
    a * c - b * b
  }

  /** The closest points of the infinite lines, clamped to the s = 0 or s = 1 edge. */
  function LineFractions(a: real, b: real, c: real, d: real, e: real): (f: Fractions)
    requires a >= 0.0 && c >= 0.0
    ensures Proper(f.sn, f.sd) && f.sd > 0.0 && f.td >= 0.0
    ensures Gram(a, b, c) < Epsilon ==> f.sn == 0.0 && f.tn == e && f.td == c
  {
    var dd := Gram(a, b, c);
    if dd < Epsilon then Fractions(0.0, 1.0, e, c)
    else
      var sn := b * e - c * d;
      var tn := a * e - b * d;
      if sn < 0.0 then Fractions(0.0, dd, e, c)
      else if sn > dd then Fractions(dd, dd, e + b, c)
      else Fractions(sn, dd, tn, dd)
  }

  /** Clamping t to [0, 1] and recomputing s on the visible t edge. */
  function EdgeFractions(f: Fractions, a: real, b: real, d: real): (g: Fractions)
    requires a >= 0.0 && Proper(f.sn, f.sd) && f.td >= 0.0
    ensures Proper(g.sn, g.sd) && Proper(g.tn, g.td)
    ensures 0.0 <= f.tn <= f.td ==> g == f
  {
    if f.tn < 0.0 then
      var s := if -d < 0.0 then Fractions(0.0, f.sd, 0.0, f.td)
               else if -d > a then Fractions(f.sd, f.sd, 0.0, f.td)
               else Fractions(-d, a, 0.0, f.td);
      s
    else if f.tn > f.td then
      if -d + b < 0.0 then Fractions(0.0, f.sd, f.td, f.td)
      else if -d + b > a then Fractions(f.sd, f.sd, f.td, f.td)
      else Fractions(-d + b, a, f.td, f.td)
    else f
  }

  /** The final division, with numerators below Epsilon read as 0. */
  function Ratio(n: real, d: real): (r: real)
    requires Proper(n, d)
    ensures 0.0 <= r <= 1.0
    ensures Abs(n) < Epsilon ==> r == 0.0
  {
    if Abs(n) < Epsilon then 0.0 else UnitRatio(n, d); n / d
  }

  lemma UnitRatio(n: real, d: real)
    requires 0.0 <= n <= d && d > 0.0
    ensures 0.0 <= n / d <= 1.0
  {
    if n < d { DivBelowOne(n, d); }
    if n > 0.0 { DivPos(n, d); }
  }

  /** The line parameters (sc, tc) of the closest points. */
  function SegmentParameters(u: Vec3, v: Vec3, w: Vec3): (st: (real, real))
    ensures 0.0 <= st.0 <= 1.0 && 0.0 <= st.1 <= 1.0
    ensures Gram(NormSq(u), Dot(u, v), NormSq(v)) < Epsilon && 0.0 <= Dot(v, w) <= NormSq(v)
      ==> st.0 == 0.0
  {
    var a, b, c, d, e := NormSq(u), Dot(u, v), NormSq(v), Dot(u, w), Dot(v, w);
    var f := EdgeFractions(LineFractions(a, b, c, d, e), a, b, d);
    (Ratio(f.sn, f.sd), Ratio(f.tn, f.td))
  }

  /** The result of `dist3d_segment_to_segment`, with the distance squared. */
  datatype Closest = Closest(distSq: real, seg1p: Vec3, seg2p: Vec3)

  /** `dist3d_segment_to_segment`: the two returned points lie on their segments
      and the distance is the length of their difference. */
  function Dist3dSegmentToSegment(p0: Vec3, p1: Vec3, q0: Vec3, q1: Vec3): (r: Closest)
    ensures r.distSq >= 0.0 && r.distSq == NormSq(Sub(r.seg1p, r.seg2p))
    ensures OnSegment(r.seg1p, p0, p1) && OnSegment(r.seg2p, q0, q1)
  {
    var u, v, w := Sub(p1, p0), Sub(q1, q0), Sub(p0, q0);
    var (sc, tc) := SegmentParameters(u, v, w);
    var dp := Sub(Add(w, Scale(sc, u)), Scale(tc, v));
    var s1, s2 := Add(p0, Scale(sc, u)), Add(q0, Scale(tc, v));
    assert dp == Sub(s1, s2);
    assert 0.0 <= sc <= 1.0 && s1 == Add(p0, Scale(sc, Sub(p1, p0)));
    assert 0.0 <= tc <= 1.0 && s2 == Add(q0, Scale(tc, Sub(q1, q0)));
    Closest(NormSq(dp), s1, s2)
  }
}
