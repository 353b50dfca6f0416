/** The file matching of the missing-plot script: reading the trigger time
    and cluster id from a file name of the form
    `YYYYMMDDHHMMSS_<cluster id>_...`, and listing the energy arrays that
    have no plot. A Python dict is its key map for membership and its list of
    items, in insertion order, for iteration. */
module RocketMissingPng {
  import opened Wrappers
  import opened Text

  /** The cluster id group `\d+(?:\.\d+)?`: digits, optionally followed by
      a point and more digits. */
  predicate IdShape(id: string) {
    (|id| > 0 && AllDigits(id)) ||
    (exists k :: 0 < k < |id| - 1 && id[k] == '.' && AllDigits(id[..k]) && AllDigits(id[k + 1..]))
  }

  /** The file name matches `^(\d{14})_(\d+(?:\.\d+)?)_` with the two groups
      `dt` and `id`. */
  predicate Matches(name: string, dt: string, id: string) {
    |dt| == 14 && AllDigits(dt) && IdShape(id) &&
    |name| >= 16 + |id| && name[..14] == dt && name[14] == '_' &&
    name[15..15 + |id|] == id && name[15 + |id|] == '_'
  }

  /** `parse_filename`: the date-time string and the cluster id string, or
      nothing when the name does not match. */
  function ParseFilename(name: string): (r: Option<(string, string)>)
    ensures r.Some? ==> Matches(name, r.value.0, r.value.1)
  {
    if |name| < 16 || !AllDigits(name[..14]) || name[14] != '_' then None
    else
      var j := DigitRun(name, 15);
      if j == 15 || j == |name| then None
      else if name[j] == '_' then Some((name[..14], name[15..j]))
      else if name[j] != '.' then None
      else
        var k := DigitRun(name, j + 1);
        if k == j + 1 || k == |name| || name[k] != '_' then None
        else
          var id := name[15..k];
          assert id[j - 15] == '.' && id[..j - 15] == name[15..j] && id[j - 15 + 1..] == name[j + 1..k];
          Some((name[..14], id))
  }

  /** Every name that matches the pattern is parsed, with its own groups. */
  lemma {:induction false} ParseFilenameComplete(name: string, dt: string, id: string)
    requires Matches(name, dt, id)
    ensures ParseFilename(name) == Some((dt, id))
  {
    var e := 15 + |id|;
    assert name[15..e] == id;
    if |id| > 0 && AllDigits(id) {
      DigitRunEnd(name, 15, e);
    } else {
      var k :| 0 < k < |id| - 1 && id[k] == '.' && AllDigits(id[..k]) && AllDigits(id[k + 1..]);
      assert name[15..15 + k] == id[..k];
      assert name[15 + k] == '.';
      DigitRunEnd(name, 15, 15 + k);
      assert name[15 + k + 1..e] == id[k + 1..];
      DigitRunEnd(name, 15 + k + 1, e);
      assert name[15..e] == id;
    }
  }

  /** `parse_filename` gives `(None, None)` exactly for names that match no
      date-time and cluster id. */
  lemma ParseFilenameNone(name: string)
    ensures ParseFilename(name).None? <==> forall dt, id :: !Matches(name, dt, id)
  {
    if ParseFilename(name).None? {
      forall dt, id ensures !Matches(name, dt, id) {
        if Matches(name, dt, id) {
          ParseFilenameComplete(name, dt, id);
        }
      }
    }
  }

  // ---------------------------------------------------------------------
  // find_unmatched_npy_files

  /** The energy-array files of the items whose key has no plot, item by
      item in dict order. */
  function Unmatched<K, P>(png: map<K, seq<P>>, npy: seq<(K, seq<P>)>): seq<P>
  {
    if npy == [] then []
    else
      var n := |npy| - 1;
      Unmatched(png, npy[..n]) + (if npy[n].0 in png then [] else npy[n].1)
  }

  /** `find_unmatched_npy_files`: extends the result with the files of each
      item whose key is missing from the plots. */
  method FindUnmatchedNpyFiles<K, P>(png: map<K, seq<P>>, npy: seq<(K, seq<P>)>) returns (r: seq<P>)
    ensures r == Unmatched(png, npy)
  {
    r := [];
    for i := 0 to |npy|
      invariant r == Unmatched(png, npy[..i])
    {
      assert npy[..i + 1][..i] == npy[..i];
      if npy[i].0 !in png {
        r := r + npy[i].1;
      }
    }
    assert npy[..|npy|] == npy;
  }

  /** The unmatched files are exactly the files of the items whose key has
      no plot. */
  lemma {:induction false} UnmatchedMembers<K, P>(png: map<K, seq<P>>, npy: seq<(K, seq<P>)>, p: P)
    ensures p in Unmatched(png, npy) <==> exists i :: 0 <= i < |npy| && npy[i].0 !in png && p in npy[i].1
    decreases |npy|
  {
    if npy != [] {
      var n := |npy| - 1;
      UnmatchedMembers(png, npy[..n], p);
      if exists i :: 0 <= i < |npy| && npy[i].0 !in png && p in npy[i].1 {
        var i :| 0 <= i < |npy| && npy[i].0 !in png && p in npy[i].1;
        if i < n {
          assert npy[..n][i] == npy[i];
        }
      }
      if exists i :: 0 <= i < n && npy[..n][i].0 !in png && p in npy[..n][i].1 {
        var i :| 0 <= i < n && npy[..n][i].0 !in png && p in npy[..n][i].1;
        assert npy[i] == npy[..n][i];
      }
    }
  }

  /** The result is the concatenation of the unmatched items' lists in dict
      order: with no plots at all it is every list, one after the other. */
  lemma {:induction false} UnmatchedNoPlots<K, P>(npy: seq<(K, seq<P>)>)
    ensures Unmatched(map[], npy) == Concat(seq(|npy|, i requires 0 <= i < |npy| => npy[i].1))
    decreases |npy|
  {
    if npy != [] {
      var n := |npy| - 1;
      UnmatchedNoPlots(npy[..n]);
      var all := seq(|npy|, i requires 0 <= i < |npy| => npy[i].1);
      assert all[..n] == seq(n, i requires 0 <= i < n => npy[..n][i].1);
    }
  }

  /** Concatenation of a list of lists. */
  function Concat<P>(xs: seq<seq<P>>): seq<P>
  {
    if xs == [] then [] else Concat(xs[..|xs| - 1]) + xs[|xs| - 1]
  }
}
