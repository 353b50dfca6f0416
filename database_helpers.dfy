/** The pure parts of the database helper: prepending a value to every row
    of a list of tuples, and the array literals `insert_event` builds for
    the location and velocity columns. A tuple is a sequence of values;
    the decimal rendering of a float is a parameter. */
module DatabaseHelpers {
  import opened RealMath
  import Text

  /** `prepend_element_to_list_of_tuples`: `(elem,) + t` for every row `t`. */
  function PrependElement<T>(elem: T, rows: seq<seq<T>>): (r: seq<seq<T>>)
    ensures |r| == |rows|
    ensures forall i :: 0 <= i < |r| ==> |r[i]| == |rows[i]| + 1 && r[i][0] == elem
  {
    seq(|rows|, i requires 0 <= i < |rows| => [elem] + rows[i])
  }

  /** Dropping the first element of every row. */
  function DropFirst<T>(rows: seq<seq<T>>): (r: seq<seq<T>>)
    requires forall i :: 0 <= i < |rows| ==> |rows[i]| > 0
    ensures |r| == |rows|
  {
    seq(|rows|, i requires 0 <= i < |rows| => rows[i][1..])
  }

  /** Prepending leaves the rest of every row as it was: dropping the first
      element again gives back the original rows. */
  lemma PrependThenDrop<T>(elem: T, rows: seq<seq<T>>)
    ensures DropFirst(PrependElement(elem, rows)) == rows
  {
    var r := DropFirst(PrependElement(elem, rows));
    forall i | 0 <= i < |rows| ensures r[i] == rows[i] {
      assert ([elem] + rows[i])[1..] == rows[i];
    }
  }

  /** Threshold below which a velocity component counts as zero. */
  const ZeroVelocityTolerance: real := 0.0000001

  /** `"{x, y, z}"` with each component rendered by `fmt`. */
  function ArrayLiteral(v: Vec3, fmt: real -> string): (s: string)
    ensures |s| >= 6 && s[0] == '{' && s[|s| - 1] == '}'
  {
    "{" + fmt(v.x) + ", " + fmt(v.y) + ", " + fmt(v.z) + "}"
  }

  /** Every component of the velocity is smaller than the tolerance in size. */
  predicate ZeroVelocity(v: Vec3) {
    Abs(v.x) < ZeroVelocityTolerance && Abs(v.y) < ZeroVelocityTolerance && Abs(v.z) < ZeroVelocityTolerance
  }

  const NullVelocity: string := "{Null, Null, Null}"

  /** The location column of `insert_event` holds the three components in
      order: split at its commas, it gives back each rendered component
      (after the brace or the blank that precedes it). */
  lemma {:induction false} LocationComponents(loc: Vec3, fmt: real -> string)
    requires ',' !in fmt(loc.x) && ',' !in fmt(loc.y) && ',' !in fmt(loc.z)
    ensures Text.Split(ArrayLiteral(loc, fmt), ',') == ["{" + fmt(loc.x), " " + fmt(loc.y), " " + fmt(loc.z) + "}"]
  {
    var a, b, c := "{" + fmt(loc.x), " " + fmt(loc.y), " " + fmt(loc.z) + "}";
    assert ArrayLiteral(loc, fmt) == a + [','] + (b + [','] + c);
    assert ',' !in a && ',' !in b && ',' !in c;
    Text.SplitTwoSeparators(a, b, c, ',');
  }

  /** The velocity column of `insert_event`: nulls unless some component is
      at least the tolerance in size. */
  function VelocityLiteral(vel: Vec3, fmt: real -> string): (s: string)
  {
    if ZeroVelocity(vel) then NullVelocity else ArrayLiteral(vel, fmt)
  }

  /** The rendered location starts with the first component's text right
      after the brace, so it is cut at the component boundaries. */
  lemma ArrayLiteralParts(v: Vec3, fmt: real -> string)
    ensures var s, a := ArrayLiteral(v, fmt), fmt(v.x);
      s[1..1 + |a|] == a && s[1 + |a|..3 + |a|] == ", "
  {
  }

  /** The null literal is chosen exactly when every component is below the
      tolerance, as long as a rendered float never holds an `N` (Python
      renders floats with digits, a sign, `.`, `e`, `inf` or `nan`). */
  lemma {:induction false} NullVelocityIff(vel: Vec3, fmt: real -> string)
    requires 'N' !in fmt(vel.x)
    ensures VelocityLiteral(vel, fmt) == NullVelocity <==> ZeroVelocity(vel)
  {
    if !ZeroVelocity(vel) {
      var s, a := ArrayLiteral(vel, fmt), fmt(vel.x);
      ArrayLiteralParts(vel, fmt);
      if |a| == 0 {
        assert s[1] == ',';
      } else {
        assert s[1] == a[0];
      }
      assert NullVelocity[1] == 'N';
    }
  }
}
