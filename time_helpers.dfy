/** The time helpers shared by the server and the viewer: `pad`,
    `msToTimestamp`, and the substrings `parseTimestamp` hands to
    `Date.parse`. JavaScript numbers are reals; `Date.parse` is a
    parameter. */
module TimeHelpers {
  import opened RealMath
  import opened Text

  /** What `pad` returns: the number itself, or a string. */
  datatype Padding = Number(n: int) | Filled(s: string)

  /** The text an element becomes in `join`. */
  function PaddingText(p: Padding): string {
    match p
    case Number(n) => IntToString(n)
    case Filled(s) => s
  }

  /** `new Array(k + 1).join(z)`: `k` copies of `z`. */
  function Copies(z: string, k: nat): string {
    if k == 0 then [] else Copies(z, k - 1) + z
  }

  /** With a one-character filler the copies are that character repeated. */
  lemma {:induction false} CopiesOfChar(c: char, k: nat)
    ensures Copies([c], k) == Repeat(c, k)
  {
    if k > 0 {
      CopiesOfChar(c, k - 1);
      assert Repeat(c, k - 1) + [c] == Repeat(c, k);
    }
  }

  /** `pad(n, width, z)`: `n` itself when its decimal text already has
      `width` characters, else that text left-filled with copies of `z`. */
  function Pad(n: int, width: int, z: string): (r: Padding)
    ensures r.Number? <==> |IntToString(n)| >= width
    ensures r.Number? ==> r.n == n
    ensures r.Filled? ==> |r.s| >= |IntToString(n)| && r.s[|r.s| - |IntToString(n)|..] == IntToString(n)
  {
    var str := IntToString(n);
    if |str| >= width then Number(n) else Filled(Copies(z, width - |str|) + str)
  }

  /** Padding a non-negative number with `'0'` is zero filling its decimal
      text, so the text still reads back as the number and has at least
      `width` digits. */
  lemma PadIsZeroFill(n: nat, width: nat)
    ensures PaddingText(Pad(n, width, "0")) == ZeroFill(NatToString(n), width) == Padded(n, width)
  {
    var str := NatToString(n);
    if |str| < width {
      CopiesOfChar('0', width - |str|);
    }
  }

  /** The hours, minutes and seconds of `msToTimestamp`: JavaScript `%` and
      `Math.floor` on `ms / 1000`. */
  function Clock(ms: real): (hms: (int, int, int))
    ensures ms >= 0.0 ==> hms.0 >= 0 && 0 <= hms.1 < 60 && 0 <= hms.2 < 60
  {
    var t := ms / 1000.0;
    (Floor(t / 3600.0), Floor(JsMod(t / 60.0, 60.0)), Floor(JsMod(t, 60.0)))
  }

  /** `Math.floor` commutes with adding a whole number. */
  lemma FloorShift(x: real, k: int)
    ensures Floor(x + k as real) == Floor(x) + k
  {
  }

  /** For a non-negative time the clock fields add up to the whole seconds:
      minutes and seconds wrap at sixty and the hours take the rest,
      without a bound. */
  lemma {:induction false} ClockTotal(ms: real)
    requires ms >= 0.0
    ensures var hms := Clock(ms);
      hms.0 * 3600 + hms.1 * 60 + hms.2 == Floor(ms / 1000.0)
  {
    var t := ms / 1000.0;
    var q := (t / 60.0).Floor;
    var r := ((t / 60.0) / 60.0).Floor;
    assert (t / 60.0) / 60.0 == t / 3600.0;
    assert JsMod(t, 60.0) == t + (-q) as real * 60.0;
    FloorShift(t, -q * 60);
    assert JsMod(t / 60.0, 60.0) == t / 60.0 + (-r) as real * 60.0;
    FloorShift(t / 60.0, -r * 60);
  }

  /** The three fields padded to two characters and joined with `:`. */
  function ClockText(h: int, m: int, sec: int): string {
    Join([PaddingText(Pad(h, 2, "0")), PaddingText(Pad(m, 2, "0")), PaddingText(Pad(sec, 2, "0"))], ":")
  }

  /** `msToTimestamp`. */
  function MsToTimestamp(ms: real): string {
    var hms := Clock(ms);
    ClockText(hms.0, hms.1, hms.2)
  }

  /** Fields in range give `HH:MM:SS`: the hours zero-filled to at least
      two digits, the minutes and seconds to exactly two. */
  lemma {:induction false} ClockTextFields(h: nat, m: nat, sec: nat)
    requires m < 60 && sec < 60
    ensures ClockText(h, m, sec) == Padded(h, 2) + ":" + Padded(m, 2) + ":" + Padded(sec, 2)
    ensures |Padded(h, 2)| >= 2 && |Padded(m, 2)| == 2 && |Padded(sec, 2)| == 2
  {
    PadIsZeroFill(h, 2);
    PadIsZeroFill(m, 2);
    PadIsZeroFill(sec, 2);
    PaddedLength(m, 2);
    PaddedLength(sec, 2);
    JoinThree(Padded(h, 2), Padded(m, 2), Padded(sec, 2), ":");
  }

  /** Digits hold no `:`. */
  lemma NoColon(s: string)
    requires AllDigits(s)
    ensures ':' !in s
  {
    forall i | 0 <= i < |s| ensures s[i] != ':' {
      assert IsDigit(s[i]);
    }
  }

  /** Fields in range read back from their text: split at `:`, the parts
      are the three numbers. */
  lemma {:induction false} ClockTextReadBack(h: nat, m: nat, sec: nat)
    requires m < 60 && sec < 60
    ensures Split(ClockText(h, m, sec), ':') == [Padded(h, 2), Padded(m, 2), Padded(sec, 2)]
    ensures var p := Split(ClockText(h, m, sec), ':');
      |p| == 3 && AllDigits(p[0]) && AllDigits(p[1]) && AllDigits(p[2]) &&
      DecimalValue(p[0]) == h && DecimalValue(p[1]) == m && DecimalValue(p[2]) == sec
  {
    var a, b, c := Padded(h, 2), Padded(m, 2), Padded(sec, 2);
    ClockTextFields(h, m, sec);
    NoColon(a);
    NoColon(b);
    NoColon(c);
    SplitThree(a, b, c, ':');
  }

  /** For a non-negative time the timestamp is `HH:MM:SS`, minutes and
      seconds with exactly two digits, and it reads back, split at `:`, to
      the whole seconds of the time. */
  lemma {:induction false} MsToTimestampReadBack(ms: real)
    requires ms >= 0.0
    ensures var p := Split(MsToTimestamp(ms), ':');
      |p| == 3 && AllDigits(p[0]) && AllDigits(p[1]) && AllDigits(p[2]) &&
      |p[0]| >= 2 && |p[1]| == 2 && |p[2]| == 2 &&
      DecimalValue(p[0]) * 3600 + DecimalValue(p[1]) * 60 + DecimalValue(p[2]) == Floor(ms / 1000.0)
  {
    var hms := Clock(ms);
    ClockTextFields(hms.0, hms.1, hms.2);
    ClockTextReadBack(hms.0, hms.1, hms.2);
    ClockTotal(ms);
  }

  /** JavaScript `s.substring(a, b)`: both ends clamped to the length, and
      swapped when the first is the larger. */
  function Substring(s: string, a: nat, b: nat): (r: string)
    ensures |r| <= |s|
    ensures a <= b <= |s| ==> r == s[a..b]
  {
    var i := if a < |s| then a else |s|;
    var j := if b < |s| then b else |s|;
    if i <= j then s[i..j] else s[j..i]
  }

  /** The text `parseTimestamp` hands to `Date.parse`: the date from
      characters 0 to 10 and the time of day from characters 15 to 23. */
  function TimestampText(log: string): string {
    Substring(log, 0, 10) + " " + Substring(log, 15, 23)
  }

  /** `parseTimestamp`, with `Date.parse` as a parameter. */
  function ParseTimestamp(log: string, dateParse: string -> real): real {
    dateParse(TimestampText(log))
  }

  /** A log line `yyyy-mm-dd doy HH:mm:ss ...` is read at its date and its
      time of day, skipping the day of the year and the message. */
  lemma ParseTimestampOfLog(date: string, doy: string, time: string, message: string, dateParse: string -> real)
    requires |date| == 10 && |doy| == 3 && |time| == 8
    ensures ParseTimestamp(date + " " + doy + " " + time + message, dateParse) == dateParse(date + " " + time)
  {
    var log := date + " " + doy + " " + time + message;
    assert log[0..10] == date;
    assert log[15..23] == time;
  }

  /** A line shorter than the date gives the whole line and a blank. */
  lemma ParseTimestampShort(log: string, dateParse: string -> real)
    requires |log| <= 10
    ensures ParseTimestamp(log, dateParse) == dateParse(log + " ")
  {
    assert Substring(log, 0, 10) == log[0..|log|] == log;
    assert Substring(log, 15, 23) == log[|log|..|log|] == "";
    assert TimestampText(log) == log + " " + "" == log + " ";
  }
}
