/** String helpers shared by the Python and TypeScript parts: decimal
    rendering and reading of integers, zero filling, substring search,
    joining, splitting on a separator character and whitespace trimming. */
module Text {

  predicate IsDigit(c: char) { '0' <= c <= '9' }

  predicate AllDigits(s: string) {
    forall i :: 0 <= i < |s| ==> IsDigit(s[i])
  }

  function DigitValue(c: char): (d: nat)
    requires IsDigit(c)
    ensures d < 10
  {
    c as int - '0' as int
  }

  function DigitChar(d: nat): (c: char)
    requires d < 10
    ensures IsDigit(c) && DigitValue(c) == d
  {
    (d + '0' as int) as char
  }

  /** Decimal rendering without leading zeros (Python `str(n)`, JS `${n}`). */
  function NatToString(n: nat): (s: string)
    ensures |s| >= 1 && AllDigits(s)
    ensures (s[0] == '0') == (n == 0)
    ensures n < 10 <==> |s| == 1
    decreases n
  {
    if n < 10 then [DigitChar(n)] else NatToString(n / 10) + [DigitChar(n % 10)]
  }

  /** Signed decimal rendering. */
  function IntToString(i: int): (s: string)
    ensures |s| >= 1
    ensures (s[0] == '-') == (i < 0)
  {
    if i < 0 then "-" + NatToString(-i) else NatToString(i)
  }

  /** The value of a string of decimal digits (Python `int(s)`, JS `parseInt(s)`). */
  function DecimalValue(s: string): nat
    requires AllDigits(s)
  {
    if s == [] then 0 else DecimalValue(s[..|s| - 1]) * 10 + DigitValue(s[|s| - 1])
  }

  lemma {:induction false} DecimalValueOfNatToString(n: nat)
    ensures DecimalValue(NatToString(n)) == n
    decreases n
  {
    if n >= 10 {
      var s := NatToString(n);
      DecimalValueOfNatToString(n / 10);
      assert s[..|s| - 1] == NatToString(n / 10);
    }
  }

  /** Rendering is injective, so the decimal string of a number identifies it. */
  lemma NatToStringInjective(m: nat, n: nat)
    requires NatToString(m) == NatToString(n)
    ensures m == n
  {
    DecimalValueOfNatToString(m);
    DecimalValueOfNatToString(n);
  }

  /** The end of the run of decimal digits that starts at `i`. */
  function DigitRun(s: string, i: nat): (j: nat)
    requires i <= |s|
    ensures i <= j <= |s| && AllDigits(s[i..j]) && (j == |s| || !IsDigit(s[j]))
    decreases |s| - i
  {
    if i < |s| && IsDigit(s[i]) then
      var j := DigitRun(s, i + 1);
      assert s[i..j] == [s[i]] + s[i + 1..j];
      j
    else i
  }

  /** A digit run that ends on a non-digit is the maximal one. */
  lemma {:induction false} DigitRunEnd(s: string, i: nat, j: nat)
    requires i <= j <= |s| && AllDigits(s[i..j]) && (j == |s| || !IsDigit(s[j]))
    ensures DigitRun(s, i) == j
    decreases j - i
  {
    if i < j {
      assert s[i] == s[i..j][0];
      assert s[i + 1..j] == s[i..j][1..];
      DigitRunEnd(s, i + 1, j);
    }
  }

  /** The digit run from `i` covers every digit string that starts at `i`. */
  lemma {:induction false} DigitRunAtLeast(s: string, i: nat, j: nat)
    requires i + j <= |s| && AllDigits(s[i..i + j])
    ensures DigitRun(s, i) >= i + j
    decreases j
  {
    if j > 0 {
      assert IsDigit(s[i..i + j][0]);
      assert s[i + 1..i + 1 + (j - 1)] == s[i..i + j][1..];
      DigitRunAtLeast(s, i + 1, j - 1);
    }
  }

  /** The digit run from `i` stops at the first non-digit at or after `i`. */
  lemma {:induction false} DigitRunAtMost(s: string, i: nat, q: nat)
    requires i <= q < |s| && !IsDigit(s[q])
    ensures DigitRun(s, i) <= q
    decreases q - i
  {
    if i < q && IsDigit(s[i]) {
      DigitRunAtMost(s, i + 1, q);
    }
  }

  /** A slice of a digit string is a digit string. */
  lemma DigitsSlice(s: string, a: nat, b: nat, c: nat, d: nat)
    requires a <= c <= d <= b <= |s| && AllDigits(s[a..b])
    ensures AllDigits(s[c..d])
  {
    forall t | 0 <= t < d - c ensures IsDigit(s[c..d][t]) {
      assert s[c..d][t] == s[a..b][c - a + t];
    }
  }

  function Repeat(c: char, k: nat): (s: string)
    ensures |s| == k && forall i :: 0 <= i < k ==> s[i] == c
  {
    seq(k, _ => c)
  }

  /** Python `str.zfill(w)` on a string without a sign: left-fills with '0' up to width `w`. */
  function ZeroFill(s: string, w: nat): (r: string)
    ensures |r| == if |s| >= w then |s| else w
    ensures r[|r| - |s|..] == s
    ensures forall i :: 0 <= i < |r| - |s| ==> r[i] == '0'
  {
    if |s| >= w then s else Repeat('0', w - |s|) + s
  }

  /** Zero-filled decimal rendering of a number. */
  function Padded(n: nat, w: nat): (r: string)
    ensures AllDigits(r) && |r| >= w
    ensures DecimalValue(r) == n
  {
    PaddedValue(n, w);
    ZeroFill(NatToString(n), w)
  }

  lemma {:induction false} PaddedValue(n: nat, w: nat)
    ensures AllDigits(ZeroFill(NatToString(n), w))
    ensures DecimalValue(ZeroFill(NatToString(n), w)) == n
  {
    var s := NatToString(n);
    DecimalValueOfNatToString(n);
    if |s| < w {
      LeadingZerosKeepValue(w - |s|, s);
    }
  }

  lemma {:induction false} LeadingZerosKeepValue(k: nat, s: string)
    requires AllDigits(s)
    ensures AllDigits(Repeat('0', k) + s)
    ensures DecimalValue(Repeat('0', k) + s) == DecimalValue(s)
    decreases |s|
  {
    var t := Repeat('0', k) + s;
    if s == [] {
      assert t == Repeat('0', k);
      ZerosValue(k);
    } else {
      LeadingZerosKeepValue(k, s[..|s| - 1]);
      assert t[..|t| - 1] == Repeat('0', k) + s[..|s| - 1];
    }
  }

  lemma {:induction false} ZerosValue(k: nat)
    ensures DecimalValue(Repeat('0', k)) == 0
  {
    if k > 0 {
      ZerosValue(k - 1);
      assert Repeat('0', k)[..k - 1] == Repeat('0', k - 1);
    }
  }

  /** `sub` occurs in `s` starting at index `i`. */
  predicate OccursAt(s: string, sub: string, i: nat) {
    i + |sub| <= |s| && s[i..i + |sub|] == sub
  }

  /** Python `sub in s`, JS `s.includes(sub)`. */
  predicate Contains(s: string, sub: string) {
    exists i: nat | i <= |s| :: OccursAt(s, sub, i)
  }

  /** JS `parts.join(sep)`. */
  function Join(parts: seq<string>, sep: string): (r: string)
    ensures |parts| == 1 ==> r == parts[0]
  {
    if |parts| == 0 then ""
    else if |parts| == 1 then parts[0]
    else Join(parts[..|parts| - 1], sep) + sep + parts[|parts| - 1]
  }

  /** Three parts joined: each separator between two of them. */
  lemma JoinThree(a: string, b: string, c: string, sep: string)
    ensures Join([a, b, c], sep) == a + sep + b + sep + c
  {
    var parts := [a, b, c];
    assert parts[..2] == [a, b] && parts[..2][..1] == [a];
  }

  /** One more character for a split: a separator opens a new piece, any
      other character extends the last one. */
  function SplitStep(parts: seq<string>, x: char, c: char): (r: seq<string>)
    requires |parts| >= 1
    ensures |r| >= 1
  {
    if x == c then parts + [""]
    else parts[..|parts| - 1] + [parts[|parts| - 1] + [x]]
  }

  /** JS `s.split(c)` and Python `s.split(c)` for a one-character separator:
      the pieces between separators, always at least one. */
  function Split(s: string, c: char): (parts: seq<string>)
    ensures |parts| >= 1
  {
    if s == [] then [""] else SplitStep(Split(s[..|s| - 1], c), s[|s| - 1], c)
  }

  /** Splitting and re-joining with the same separator gives back the string. */
  lemma {:induction false} JoinSplit(s: string, c: char)
    ensures Join(Split(s, c), [c]) == s
  {
    if s != [] {
      var s', x := s[..|s| - 1], s[|s| - 1];
      var p := Split(s', c);
      JoinSplit(s', c);
      assert s == s' + [x];
      if x == c {
        assert (p + [""])[..|p|] == p;
      } else {
        JoinExtendLast(p, [c], [x]);
      }
    }
  }

  /** Extending the last piece extends the join. */
  lemma JoinExtendLast(p: seq<string>, sep: string, t: string)
    requires |p| >= 1
    ensures Join(p[..|p| - 1] + [p[|p| - 1] + t], sep) == Join(p, sep) + t
  {
    var q := p[..|p| - 1] + [p[|p| - 1] + t];
    assert q[..|q| - 1] == p[..|p| - 1];
  }

  /** A string without the separator is a single piece. */
  lemma {:induction false} SplitWithout(a: string, c: char)
    requires c !in a
    ensures Split(a, c) == [a]
  {
    if a != [] {
      assert a[|a| - 1] in a;
      var a' := a[..|a| - 1];
      assert c !in a' by {
        forall k | 0 <= k < |a'| ensures a'[k] != c { assert a'[k] == a[k]; }
      }
      SplitWithout(a', c);
      assert a' + [a[|a| - 1]] == a;
    }
  }

  /** Appending to the second part of a split extends only the second part. */
  lemma SplitStepAppend(p: seq<string>, q: seq<string>, x: char, c: char)
    requires |q| >= 1
    ensures SplitStep(p + q, x, c) == p + SplitStep(q, x, c)
  {
    if x != c {
      assert (p + q)[..|p + q| - 1] == p + q[..|q| - 1];
    }
  }

  /** Splitting at a separator splits each side: the pieces of `a`, then those of `b`. */
  lemma {:induction false} SplitConcat(a: string, c: char, b: string)
    ensures Split(a + [c] + b, c) == Split(a, c) + Split(b, c)
    decreases |b|
  {
    var s := a + [c] + b;
    if b == [] {
      assert s == a + [c] && s[..|s| - 1] == a;
    } else {
      var b', x := b[..|b| - 1], b[|b| - 1];
      assert s[..|s| - 1] == a + [c] + b' && s[|s| - 1] == x;
      calc {
        Split(s, c);
        SplitStep(Split(a + [c] + b', c), x, c);
        { SplitConcat(a, c, b'); }
        SplitStep(Split(a, c) + Split(b', c), x, c);
        { SplitStepAppend(Split(a, c), Split(b', c), x, c); }
        Split(a, c) + SplitStep(Split(b', c), x, c);
      }
    }
  }

  /** Two separators: three pieces. */
  lemma SplitTwoSeparators(a: string, b: string, r: string, c: char)
    requires c !in a && c !in b && c !in r
    ensures Split(a + [c] + (b + [c] + r), c) == [a, b, r]
  {
    SplitPrefix(a, c, b + [c] + r);
    SplitPrefix(b, c, r);
    SplitWithout(r, c);
  }

  /** Three pieces without the separator, joined by it, split back. */
  lemma SplitThree(a: string, b: string, r: string, c: char)
    requires c !in a && c !in b && c !in r
    ensures Split(a + [c] + b + [c] + r, c) == [a, b, r]
  {
    assert a + [c] + b + [c] + r == a + [c] + (b + [c] + r);
    SplitTwoSeparators(a, b, r, c);
  }

  /** A string without the separator, then a split: it is glued onto the first piece. */
  lemma SplitPrefix(a: string, c: char, b: string)
    requires c !in a
    ensures Split(a + [c] + b, c) == [a] + Split(b, c)
  {
    SplitConcat(a, c, b);
    SplitWithout(a, c);
  }

  /** The characters JS `String.prototype.trim` removes (white space and line terminators). */
  predicate IsJsWhitespace(c: char) {
    c == ' ' || c == '\t' || c == '\n' || c == '\r' || c == '\U{000B}' || c == '\U{000C}'
    || c == '\U{00A0}' || c == '\U{1680}' || ('\U{2000}' <= c <= '\U{200A}')
    || c == '\U{2028}' || c == '\U{2029}' || c == '\U{202F}' || c == '\U{205F}'
    || c == '\U{3000}' || c == '\U{FEFF}'
  }

  function TrimStart(s: string): (r: string)
    ensures |r| <= |s| && r == s[|s| - |r|..]
    ensures forall i :: 0 <= i < |s| - |r| ==> IsJsWhitespace(s[i])
    ensures r != [] ==> !IsJsWhitespace(r[0])
  {
    if s != [] && IsJsWhitespace(s[0]) then TrimStart(s[1..]) else s
  }

  function TrimEnd(s: string): (r: string)
    ensures |r| <= |s| && r == s[..|r|]
    ensures forall i :: |r| <= i < |s| ==> IsJsWhitespace(s[i])
    ensures r != [] ==> !IsJsWhitespace(r[|r| - 1])
  {
    if s != [] && IsJsWhitespace(s[|s| - 1]) then TrimEnd(s[..|s| - 1]) else s
  }

  /** JS `s.trim()`: `s` is the result with white space added on both sides. */
  function Trim(s: string): (r: string)
    ensures r != [] ==> !IsJsWhitespace(r[0]) && !IsJsWhitespace(r[|r| - 1])
    ensures exists a: nat, b: nat | a <= b <= |s| :: r == s[a..b]
              && (forall i :: 0 <= i < a ==> IsJsWhitespace(s[i]))
              && (forall i :: b <= i < |s| ==> IsJsWhitespace(s[i]))
  {
    var t := TrimStart(s);
    var r := TrimEnd(t);
    var a := |s| - |t|;
    assert r == s[a..a + |r|];
    r
  }

  function Pow10(k: nat): (r: nat)
    ensures r >= 1
  {
    if k == 0 then 1 else 10 * Pow10(k - 1)
  }

  /** Reading a concatenation of digit strings: the left part is shifted by the right part's width. */
  lemma {:induction false} DecimalValueConcat(a: string, b: string)
    requires AllDigits(a) && AllDigits(b)
    ensures AllDigits(a + b)
    ensures DecimalValue(a + b) == DecimalValue(a) * Pow10(|b|) + DecimalValue(b)
    decreases |b|
  {
    if b == [] {
      assert a + b == a;
    } else {
      var b' := b[..|b| - 1];
      DecimalValueConcat(a, b');
      assert (a + b)[..|a + b| - 1] == a + b';
      ShiftStep(DecimalValue(a), Pow10(|b'|), DecimalValue(b'), DigitValue(b[|b| - 1]));
    }
  }

  lemma ShiftStep(x: int, p: int, y: int, d: int)
    ensures (x * p + y) * 10 + d == x * (10 * p) + (y * 10 + d)
  {
  }

  /** A number below 10^k has at most k digits. */
  lemma {:induction false} NatToStringLength(n: nat, k: nat)
    requires n < Pow10(k)
    ensures |NatToString(n)| <= k || (n == 0 && k == 0)
    decreases n
  {
    if n >= 10 {
      NatToStringLength(n / 10, k - 1);
    }
  }

  /** A number below 10^w zero-filled to width w has exactly w digits. */
  lemma PaddedLength(n: nat, w: nat)
    requires n < Pow10(w) && w >= 1
    ensures |Padded(n, w)| == w
  {
    NatToStringLength(n, w);
  }

}
