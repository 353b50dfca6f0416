/** `in_glm_file_latter_half` and `debug_print`. */
module UtilHelpers {
  import opened RealMath
  import GlmConfig

  /** `debug_print`: the printed output is a log of lines; the line is added
      only in debug mode. */
  function DebugPrint(output: seq<string>, line: string, debugMode: bool): (r: seq<string>)
    ensures !debugMode ==> r == output
    ensures debugMode ==> |r| == |output| + 1 && r[..|output|] == output && r[|output|] == line
  {
    if debugMode then output + [line] else output
  }

  /** A time (seconds since the Unix epoch) lies in the second half of its
      20-second GLM file interval. */
  predicate InGlmFileLatterHalf(ssue: real)
  {
    PyMod(ssue, GlmConfig.ProcessIntervalS) >= GlmConfig.ProcessIntervalS / 2.0
  }

  /** For whole seconds this is the integer rule `ssue % 20 >= 10`. */
  lemma InGlmFileLatterHalfInt(ssue: int)
    ensures InGlmFileLatterHalf(ssue as real) <==> ssue % 20 >= 10
  {
    var q, r := ssue / 20, ssue % 20;
    assert ssue as real == r as real + q as real * 20.0;
    PyModUnique(ssue as real, 20.0, r as real, q);
  }

  /** The classification repeats every processing interval. */
  lemma InGlmFileLatterHalfPeriodic(ssue: real, k: int)
    ensures InGlmFileLatterHalf(ssue + k as real * GlmConfig.ProcessIntervalS) <==> InGlmFileLatterHalf(ssue)
  {
    PyModPeriodic(ssue, 20.0, k);
  }

  /** Half an interval later the classification flips, so shifting by 10 s maps
      the first half of every interval onto the second: exactly half of each
      interval is the latter half. */
  lemma InGlmFileLatterHalfShift(ssue: real)
    ensures InGlmFileLatterHalf(ssue + GlmConfig.ProcessIntervalS / 2.0) <==> !InGlmFileLatterHalf(ssue)
  {
    var r := PyMod(ssue, 20.0);
    var q := (ssue / 20.0).Floor;
    if r < 10.0 {
      PyModUnique(ssue + 10.0, 20.0, r + 10.0, q);
    } else {
      PyModUnique(ssue + 10.0, 20.0, r - 10.0, q + 1);
    }
  }

  /** Of the twenty whole seconds of an interval, the last ten are the latter half. */
  lemma LatterHalfSecond(k: int, s: int)
    requires 20 * k <= s < 20 * k + 20
    ensures InGlmFileLatterHalf(s as real) <==> s >= 20 * k + 10
  {
    InGlmFileLatterHalfInt(s);
    assert s == 20 * k + (s - 20 * k);
    assert s % 20 == s - 20 * k;
  }
}
