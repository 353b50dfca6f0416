/** Arithmetic on the reals that stand for the source's floating-point
    numbers: Python's floored `%`, JavaScript's truncated `%`, `Math.round`,
    absolute value, and three-vectors with the vector algebra numpy applies
    to ECEF positions. */
module RealMath {

  function Abs(x: real): (r: real)
    ensures r >= 0.0 && (r == x || r == -x)
  {
    if x < 0.0 then -x else x
  }

  function Max(a: real, b: real): (r: real)
    ensures r >= a && r >= b && (r == a || r == b)
  {
    if a >= b then a else b
  }

  lemma FloorBounds(y: real)
    ensures y.Floor as real <= y < y.Floor as real + 1.0
  {
  }

  lemma MulPos(a: real, b: real)
    requires a > 0.0 && b > 0.0
    ensures a * b > 0.0
  {
  }

  lemma MulBounds(y: real, f: real, m: real)
    requires m > 0.0 && f <= y < f + 1.0
    ensures f * m <= y * m < f * m + m
  {
    ScaledUpper(y * m, y, f, m);
    ScaledLower(y * m, y, f, m);
  }

  lemma ScaledUpper(x: real, y: real, f: real, m: real)
    requires m > 0.0 && y * m == x && y < f + 1.0
    ensures x < f * m + m
  {
    MulPos(f + 1.0 - y, m);
    assert (f + 1.0 - y) * m == f * m + m - y * m;
  }

  lemma ScaledLower(x: real, y: real, f: real, m: real)
    requires m > 0.0 && y * m == x && f <= y
    ensures f * m <= x
  {
    if f < y {
      MulPos(y - f, m);
      assert (y - f) * m == y * m - f * m;
    }
  }

  lemma DivMul(y: real, m: real)
    requires m != 0.0
    ensures (y / m) * m == y
  {
  }

  lemma CancelFactor(a: real, b: real, m: real)
    requires m > 0.0 && a * m == b * m
    ensures a == b
  {
    if a < b { MulPos(b - a, m); }
    if b < a { MulPos(a - b, m); }
  }

  lemma FloorTimesBounds(x: real, m: real)
    requires m > 0.0
    ensures (x / m).Floor as real * m <= x < (x / m).Floor as real * m + m
  {
    var y := x / m;
    var f := y.Floor as real;
    ScaledUpper(x, y, f, m);
    ScaledLower(x, y, f, m);
  }

  /** Python `x % m` on floats for a positive modulus: the remainder takes the sign of `m`. */
  function PyMod(x: real, m: real): (r: real)
    requires m > 0.0
    ensures 0.0 <= r < m
    ensures x == r + (x / m).Floor as real * m
  {
    FloorTimesBounds(x, m);
    x - (x / m).Floor as real * m
  }

  /** Adding a whole number of moduli does not change a Python remainder. */
  lemma PyModPeriodic(x: real, m: real, k: int)
    requires m > 0.0
    ensures PyMod(x + k as real * m, m) == PyMod(x, m)
  {
    var y := x + k as real * m;
    DivMul(y, m);
    DivMul(x, m);
    assert (y / m) * m == (x / m + k as real) * m;
    CancelFactor(y / m, x / m + k as real, m);
    var q := (x / m).Floor;
    assert (y / m).Floor == q + k;
    assert (q + k) as real * m == q as real * m + k as real * m;
  }

  /** The remainder is the unique value in [0, m) congruent to x. */
  lemma PyModUnique(x: real, m: real, r: real, k: int)
    requires m > 0.0 && 0.0 <= r < m && x == r + k as real * m
    ensures PyMod(x, m) == r
  {
    PyModPeriodic(r, m, k);
    DivBelowOne(r, m);
    if r > 0.0 { DivPos(r, m); }
    assert (r / m).Floor == 0;
  }

  lemma DivPos(a: real, m: real)
    requires a > 0.0 && m > 0.0
    ensures a / m > 0.0
  {
  }

  lemma DivBelowOne(r: real, m: real)
    requires 0.0 <= r < m
    ensures r / m < 1.0
  {
    assert (m - r) / m == m / m - r / m;
    assert m / m == 1.0;
    DivPos(m - r, m);
  }

  /** JavaScript `x % m` (truncated): the remainder takes the sign of `x`. */
  function JsMod(x: real, m: real): (r: real)
    requires m > 0.0
    ensures x >= 0.0 ==> 0.0 <= r < m && r == PyMod(x, m)
    ensures x < 0.0 ==> -m < r <= 0.0 && r == -PyMod(-x, m)
  {
    if x >= 0.0 then PyMod(x, m) else -PyMod(-x, m)
  }

  /** JavaScript `Math.floor`. */
  function Floor(x: real): (r: int)
    ensures r as real <= x < r as real + 1.0
  {
    x.Floor
  }

  /** JavaScript `Math.round`: halves round up. */
  function Round(x: real): (r: int)
    ensures x - 0.5 < r as real <= x + 0.5
  {
    (x + 0.5).Floor
  }

  datatype Vec3 = Vec3(x: real, y: real, z: real)

  function Add(a: Vec3, b: Vec3): Vec3 { Vec3(a.x + b.x, a.y + b.y, a.z + b.z) }
  function Sub(a: Vec3, b: Vec3): Vec3 { Vec3(a.x - b.x, a.y - b.y, a.z - b.z) }
  function Scale(k: real, a: Vec3): Vec3 { Vec3(k * a.x, k * a.y, k * a.z) }
  function Dot(a: Vec3, b: Vec3): real { a.x * b.x + a.y * b.y + a.z * b.z }

  /** Squared Euclidean length. */
  function NormSq(a: Vec3): (r: real)
    ensures r >= 0.0
  {
    SquareNonNeg(a.x);
    SquareNonNeg(a.y);
    SquareNonNeg(a.z);
    Dot(a, a)
  }

  lemma SquareNonNeg(v: real)
    ensures v * v >= 0.0
  {
    if v < 0.0 {
      var w := -v;
      MulPos(w, w);
      assert v * v == w * w;
    }
  }

  /** The mean of two points (numpy `np.mean([p, q], axis=0)`). */
  function Midpoint(p: Vec3, q: Vec3): (m: Vec3)
    ensures Sub(m, p) == Sub(q, m)
  {
    Vec3((p.x + q.x) / 2.0, (p.y + q.y) / 2.0, (p.z + q.z) / 2.0)
  }
}
