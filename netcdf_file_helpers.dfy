/** `checkFile` of the NetCDF file helpers: whether a GOES file name of the
    form `..._s<start>_e<end>_c<created>.nc` covers a time. The name is read
    with the unanchored pattern `.*?_s(\d+)_e(\d+)_c\d+.nc`, whose `.` is an
    unescaped wildcard; the two groups are compared with the time as
    decimal integers. */
module NetCdfFileHelpers {
  import opened Wrappers
  import opened Text

  /** The characters a JavaScript `.` does not match. */
  predicate IsLineTerminator(c: char) {
    c == '\n' || c == '\r' || c == '\U{2028}' || c == '\U{2029}'
  }

  /** The tail `\d+.nc` of the pattern matches at `p` with `j` digits. */
  predicate TailWith(s: string, p: nat, j: nat) {
    1 <= j && p + j + 3 <= |s| && AllDigits(s[p..p + j]) && !IsLineTerminator(s[p + j]) &&
    s[p + j + 1] == 'n' && s[p + j + 2] == 'c'
  }

  /** The tail `\d+.nc` of the pattern matches at `p`. */
  ghost predicate TailMatch(s: string, p: nat) {
    exists j: nat :: TailWith(s, p, j)
  }

  /** The pattern after its leading `.*?` matches at `i` with the groups `a`
      and `b`. Each group ends at the `_` that follows it, so it is the whole
      digit run. */
  ghost predicate NameAt(s: string, i: nat, a: string, b: string) {
    var e := i + 2 + |a|;
    var c := e + 2 + |b|;
    c + 2 <= |s| && |a| > 0 && |b| > 0 && AllDigits(a) && AllDigits(b) &&
    s[i] == '_' && s[i + 1] == 's' && s[i + 2..e] == a &&
    s[e] == '_' && s[e + 1] == 'e' && s[e + 2..c] == b &&
    s[c] == '_' && s[c + 1] == 'c' && TailMatch(s, c + 2)
  }

  /** The tail, read with the greedy digit run: the wildcard is either the
      character after the run or the run's last digit. */
  function TailAt(s: string, p: nat): (ok: bool)
    requires p <= |s|
  {
    var m := DigitRun(s, p);
    (m > p && m + 3 <= |s| && !IsLineTerminator(s[m]) && s[m + 1] == 'n' && s[m + 2] == 'c') ||
    (m >= p + 2 && m + 2 <= |s| && s[m] == 'n' && s[m + 1] == 'c')
  }

  lemma {:induction false} TailAtSound(s: string, p: nat)
    requires p <= |s| && TailAt(s, p)
    ensures TailMatch(s, p)
  {
    var m := DigitRun(s, p);
    if m > p && m + 3 <= |s| && !IsLineTerminator(s[m]) && s[m + 1] == 'n' && s[m + 2] == 'c' {
      assert TailWith(s, p, m - p);
    } else {
      var j: nat := m - p - 1;
      DigitsSlice(s, p, m, p, p + j);
      assert IsDigit(s[p..m][j]);
      assert TailWith(s, p, j);
    }
  }

  lemma {:induction false} TailMatchComplete(s: string, p: nat, j: nat)
    requires TailWith(s, p, j)
    ensures TailAt(s, p)
  {
    DigitRunAtLeast(s, p, j);
    DigitRunAtMost(s, p, p + j + 1);
  }

  lemma {:induction false} TailAtIff(s: string, p: nat)
    requires p <= |s|
    ensures TailAt(s, p) <==> TailMatch(s, p)
  {
    if TailAt(s, p) {
      TailAtSound(s, p);
    }
    if TailMatch(s, p) {
      var j: nat :| TailWith(s, p, j);
      TailMatchComplete(s, p, j);
    }
  }

  /** The groups of a match that starts its required part at `i`, if any. */
  function RestAt(s: string, i: nat): (r: Option<(string, string)>)
    ensures r.Some? ==> |r.value.0| > 0 && |r.value.1| > 0 && AllDigits(r.value.0) && AllDigits(r.value.1)
  {
    if i + 2 > |s| || s[i] != '_' || s[i + 1] != 's' then None
    else
      var e := DigitRun(s, i + 2);
      if e == i + 2 || e + 2 > |s| || s[e] != '_' || s[e + 1] != 'e' then None
      else
        var c := DigitRun(s, e + 2);
        if c == e + 2 || c + 2 > |s| || s[c] != '_' || s[c + 1] != 'c' || !TailAt(s, c + 2) then None
        else Some((s[i + 2..e], s[e + 2..c]))
  }

  /** The separators of a file name with the groups ending at `e` and `c`. */
  predicate Separators(s: string, i: nat, e: nat, c: nat) {
    i + 2 < e && e + 2 < c && c + 2 <= |s| &&
    s[i] == '_' && s[i + 1] == 's' && s[e] == '_' && s[e + 1] == 'e' && s[c] == '_' && s[c + 1] == 'c'
  }

  lemma RestAtOf(s: string, i: nat, e: nat, c: nat)
    requires Separators(s, i, e, c) && DigitRun(s, i + 2) == e && DigitRun(s, e + 2) == c && TailAt(s, c + 2)
    ensures RestAt(s, i) == Some((s[i + 2..e], s[e + 2..c]))
  {
  }

  lemma RestAtSeparators(s: string, i: nat)
    requires RestAt(s, i).Some?
    ensures var e := DigitRun(s, i + 2); var c := DigitRun(s, e + 2);
      Separators(s, i, e, c) && TailAt(s, c + 2) && RestAt(s, i) == Some((s[i + 2..e], s[e + 2..c]))
  {
  }

  lemma NameAtOf(s: string, i: nat, e: nat, c: nat)
    requires Separators(s, i, e, c) && AllDigits(s[i + 2..e]) && AllDigits(s[e + 2..c]) && TailMatch(s, c + 2)
    ensures NameAt(s, i, s[i + 2..e], s[e + 2..c])
  {
  }

  /** What `RestAt` finds is a match. */
  lemma {:induction false} RestAtSound(s: string, i: nat)
    requires RestAt(s, i).Some?
    ensures NameAt(s, i, RestAt(s, i).value.0, RestAt(s, i).value.1)
  {
    var e := DigitRun(s, i + 2);
    var c := DigitRun(s, e + 2);
    RestAtSeparators(s, i);
    TailAtIff(s, c + 2);
    NameAtOf(s, i, e, c);
  }

  /** Every match is found by `RestAt`, with its own groups. */
  lemma {:induction false} RestAtComplete(s: string, i: nat, a: string, b: string)
    requires NameAt(s, i, a, b)
    ensures RestAt(s, i) == Some((a, b))
  {
    var e := i + 2 + |a|;
    var c := e + 2 + |b|;
    assert Separators(s, i, e, c) && s[i + 2..e] == a && s[e + 2..c] == b;
    DigitRunEnd(s, i + 2, e);
    DigitRunEnd(s, e + 2, c);
    TailAtIff(s, c + 2);
    RestAtOf(s, i, e, c);
  }

  /** The groups of the leftmost match from `i` on. The lazy `.*?` tries the
      start positions in increasing order; a match attempt from a later
      start can only find the same positions again. */
  function FirstMatch(s: string, i: nat): (r: Option<(string, string)>)
    ensures r.Some? ==> AllDigits(r.value.0) && AllDigits(r.value.1)
    decreases |s| + 1 - i
  {
    if i > |s| then None
    else if RestAt(s, i).Some? then RestAt(s, i)
    else FirstMatch(s, i + 1)
  }

  /** No match starts between `i` and `k`. */
  ghost predicate NoMatchBetween(s: string, i: nat, k: nat) {
    forall j: nat, a, b :: i <= j < k ==> !NameAt(s, j, a, b)
  }

  lemma {:induction false} FirstMatchSound(s: string, i: nat)
    requires FirstMatch(s, i).Some?
    ensures exists k: nat :: i <= k && NameAt(s, k, FirstMatch(s, i).value.0, FirstMatch(s, i).value.1) &&
                             NoMatchBetween(s, i, k)
    decreases |s| + 1 - i
  {
    if RestAt(s, i).Some? {
      RestAtSound(s, i);
      assert NoMatchBetween(s, i, i);
    } else {
      FirstMatchSound(s, i + 1);
      var k: nat :| i + 1 <= k && NameAt(s, k, FirstMatch(s, i).value.0, FirstMatch(s, i).value.1) &&
        NoMatchBetween(s, i + 1, k);
      forall j: nat, a, b | i <= j < k ensures !NameAt(s, j, a, b) {
        if j == i && NameAt(s, j, a, b) { RestAtComplete(s, i, a, b); }
      }
    }
  }

  lemma {:induction false} FirstMatchComplete(s: string, i: nat, k: nat, a: string, b: string)
    requires i <= k && NameAt(s, k, a, b) && NoMatchBetween(s, i, k)
    ensures FirstMatch(s, i) == Some((a, b))
    decreases k - i
  {
    if i == k {
      RestAtComplete(s, k, a, b);
    } else {
      if RestAt(s, i).Some? {
        RestAtSound(s, i);
        assert false;
      }
      FirstMatchComplete(s, i + 1, k, a, b);
    }
  }

  /** `fileNameParser.exec(file)`: the start and end groups, or nothing. */
  function ParseFileName(file: string): (r: Option<(string, string)>)
    ensures r.Some? ==> AllDigits(r.value.0) && AllDigits(r.value.1)
  {
    FirstMatch(file, 0)
  }

  /** `checkFile`: the name matches and `start <= time <= end`. */
  function CheckFile(file: string, time: int): (covers: bool)
  {
    var g := ParseFileName(file);
    g.Some? && DecimalValue(g.value.0) <= time <= DecimalValue(g.value.1)
  }

  /** The file covers the time exactly when the leftmost match of the
      pattern has a start group at most the time and an end group at least
      the time, both ends inclusive. */
  lemma {:induction false} CheckFileIff(file: string, time: int)
    ensures CheckFile(file, time) <==>
      exists k: nat, a, b :: NameAt(file, k, a, b) && NoMatchBetween(file, 0, k) &&
        DecimalValue(a) <= time <= DecimalValue(b)
  {
    if CheckFile(file, time) {
      FirstMatchSound(file, 0);
    }
    if exists k: nat, a, b :: NameAt(file, k, a, b) && NoMatchBetween(file, 0, k) &&
         DecimalValue(a) <= time <= DecimalValue(b) {
      var k: nat, a, b :| NameAt(file, k, a, b) && NoMatchBetween(file, 0, k) &&
        DecimalValue(a) <= time <= DecimalValue(b);
      FirstMatchComplete(file, 0, k, a, b);
    }
  }

  /** A name the pattern does not match covers no time. */
  lemma {:induction false} CheckFileNoMatch(file: string, time: int)
    requires forall k: nat, a, b :: !NameAt(file, k, a, b)
    ensures !CheckFile(file, time)
  {
    if ParseFileName(file).Some? {
      FirstMatchSound(file, 0);
    }
  }

  /** The string holds no `_s`. */
  predicate NoStartMarker(s: string) {
    |s| < 2 || (!(s[0] == '_' && s[1] == 's') && NoStartMarker(s[1..]))
  }

  lemma {:induction false} NoStartMarkerAt(s: string, j: nat)
    requires NoStartMarker(s) && j + 1 < |s|
    ensures !(s[j] == '_' && s[j + 1] == 's')
    decreases j
  {
    if j > 0 {
      NoStartMarkerAt(s[1..], j - 1);
      assert s[1..][j - 1] == s[j] && s[1..][j] == s[j + 1];
    }
  }

  /** A name that starts with such a string and a `_` has no `_s` before
      that `_`. */
  lemma {:induction false} PrefixNoStart(platform: string, file: string)
    requires NoStartMarker(platform) && |platform| < |file| && file[..|platform|] == platform && file[|platform|] == '_'
    ensures forall j :: 0 <= j < |platform| && j + 1 < |file| ==> !(file[j] == '_' && file[j + 1] == 's')
  {
    var k := |platform|;
    forall j | 0 <= j < k && j + 1 < |file| ensures !(file[j] == '_' && file[j + 1] == 's') {
      assert file[j] == file[..k][j];
      if j < k - 1 {
        NoStartMarkerAt(platform, j);
        assert file[j + 1] == file[..k][j + 1];
      }
    }
  }

  /** Without an `_s` before `k`, no match starts before `k`. */
  lemma {:induction false} NoStartBefore(s: string, k: nat)
    requires forall j :: 0 <= j < k && j + 1 < |s| ==> !(s[j] == '_' && s[j + 1] == 's')
    ensures NoMatchBetween(s, 0, k)
  {
  }

  /** The parts of a GOES name form a match right after the platform part. */
  lemma {:induction false} NameOfParts(platform: string, start: string, end: string, created: string)
    requires |start| > 0 && |end| > 0 && |created| > 0 && AllDigits(start) && AllDigits(end) && AllDigits(created)
    ensures NameAt(platform + "_s" + start + "_e" + end + "_c" + created + ".nc", |platform|, start, end)
  {
    var file := platform + "_s" + start + "_e" + end + "_c" + created + ".nc";
    var k := |platform|;
    var e := k + 2 + |start|;
    var c := e + 2 + |end|;
    assert file[k + 2..e] == start;
    assert file[e + 2..c] == end;
    var p := c + 2;
    assert file[p..p + |created|] == created;
    assert TailWith(file, p, |created|);
  }

  /** A GOES name `<platform>_s<start>_e<end>_c<created>.nc`, where the
      platform part holds no `_s`, is read with its own start and end. */
  lemma {:induction false} CheckFileOfName(platform: string, start: string, end: string, created: string, time: int)
    requires |start| > 0 && |end| > 0 && |created| > 0 && AllDigits(start) && AllDigits(end) && AllDigits(created)
    requires NoStartMarker(platform)
    ensures CheckFile(platform + "_s" + start + "_e" + end + "_c" + created + ".nc", time) <==>
      DecimalValue(start) <= time <= DecimalValue(end)
  {
    var file := platform + "_s" + start + "_e" + end + "_c" + created + ".nc";
    var k := |platform|;
    NameOfParts(platform, start, end, created);
    assert file[..k] == platform;
    PrefixNoStart(platform, file);
    NoStartBefore(file, k);
    FirstMatchComplete(file, 0, k, start, end);
  }
}
