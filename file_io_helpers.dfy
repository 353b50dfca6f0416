/** `get_glm_file_meta`, which reads a GLM file's satellite and its start and
    end times from fixed positions at the end of its name, and
    `cleanup_files`, which deletes the downloaded files no queued event date
    still needs. */
module FileIoHelpers {
  import opened Wrappers
  import opened Text
  import UtilHelpers
  import GlmConfig

  // ---------------------------------------------------------------------
  // Slicing and integers

  /** Python `s[-a:-b]` for `0 <= b < a`: both ends count from the end and
      are clamped at the start of the string. */
  function NegSlice(s: string, a: nat, b: nat): (r: string)
    requires b < a
    ensures |s| >= a ==> r == s[|s| - a..|s| - b]
    ensures |s| <= b ==> r == ""
    ensures |r| <= a - b
  {
    var lo := if |s| >= a then |s| - a else 0;
    var hi := if |s| >= b then |s| - b else 0;
    s[lo..hi]
  }

  /** Python `int(s)` on a slice of ASCII digits; `None` stands for the
      ValueError. Python's `int()` also accepts surrounding whitespace, a
      sign, single underscores between digits and non-ASCII decimal digits,
      which this parse refuses. */
  function ParseDigits(s: string): (r: Option<nat>)
  {
    if |s| > 0 && AllDigits(s) then Some(DecimalValue(s)) else None
  }

  /** A slice that ends `b` characters before the end of `a + s` lies in `s`
      when `s` is long enough. */
  lemma DropPrefix(a: string, s: string, i: nat, j: nat)
    requires j < i <= |s|
    ensures NegSlice(a + s, i, j) == NegSlice(s, i, j)
  {
    assert (a + s)[|a + s| - i..|a + s| - j] == s[|s| - i..|s| - j];
  }

  /** The slice that ends exactly where `b` starts is `x`. */
  lemma TakeHead(x: string, b: string, i: nat, j: nat)
    requires i == |x| + |b| && j == |b| && j < i
    ensures NegSlice(x + b, i, j) == x
  {
    assert (x + b)[..|x|] == x;
  }

  // ---------------------------------------------------------------------
  // Dates

  /** Days from 0001-01-01 to January 1 of `year` in the proleptic Gregorian
      calendar (Python's `_days_before_year`). */
  function DaysBeforeYear(year: int): (d: int)
    requires year >= 1
  {
    var y := year - 1;
    365 * y + y / 4 - y / 100 + y / 400
  }

  predicate IsLeapYear(year: int)
  {
    year % 4 == 0 && (year % 100 != 0 || year % 400 == 0)
  }

  /** Each calendar year has 366 days when it is a leap year and 365 otherwise. */
  lemma DaysBeforeYearStep(year: int)
    requires year >= 1
    ensures DaysBeforeYear(year + 1) - DaysBeforeYear(year) == if IsLeapYear(year) then 366 else 365
  {
    var y := year - 1;
    QuotientStep4(y);
    QuotientStep100(y);
    QuotientStep400(y);
  }

  lemma QuotientStep4(y: int)
    ensures (y + 1) / 4 - y / 4 == if (y + 1) % 4 == 0 then 1 else 0
  {
  }

  lemma QuotientStep100(y: int)
    ensures (y + 1) / 100 - y / 100 == if (y + 1) % 100 == 0 then 1 else 0
    ensures (y + 1) % 100 == 0 ==> (y + 1) % 4 == 0
  {
  }

  lemma QuotientStep400(y: int)
    ensures (y + 1) / 400 - y / 400 == if (y + 1) % 400 == 0 then 1 else 0
    ensures (y + 1) % 400 == 0 ==> (y + 1) % 100 == 0
  {
  }

  /** The day number of 1970-01-01, and of 9999-12-31, the last day Python's
      `datetime` can hold. */
  const EpochOrdinal: int := 719163
  const MaxOrdinal: int := 3652059

  lemma OrdinalConstants()
    ensures DaysBeforeYear(1970) + 1 == EpochOrdinal
    ensures DaysBeforeYear(10000) == MaxOrdinal
  {
  }

  /** The date and time fields of a GLM file name: year, day of year, hour,
      minute and second. */
  datatype Stamp = Stamp(year: int, doy: int, hour: int, minute: int, second: int)

  /** What `datetime(year, 1, 1, hour, mins, secs)` accepts. */
  predicate ValidClock(s: Stamp)
  {
    1 <= s.year <= 9999 && 0 <= s.hour < 24 && 0 <= s.minute < 60 && 0 <= s.second < 60
  }

  /** The day number of January 1 of the year plus `doy - 1` days. */
  function Ordinal(s: Stamp): (o: int)
    requires s.year >= 1
  {
    DaysBeforeYear(s.year) + s.doy
  }

  datatype MetaError = NotAnInteger | DateOutOfRange | DateOverflow

  /** `(datetime(year, 1, 1, hour, mins, secs) + timedelta(days=doy - 1) - EPOCH).total_seconds()`:
      a ValueError for a bad clock, an OverflowError when the day leaves the
      range of `datetime`. */
  function StampSeconds(s: Stamp): (r: Result<int, MetaError>)
    ensures ValidClock(s) && 1 <= Ordinal(s) <= MaxOrdinal <==> r.Success?
    ensures !ValidClock(s) ==> r == Failure(DateOutOfRange)
  {
    if !ValidClock(s) then Failure(DateOutOfRange)
    else if !(1 <= Ordinal(s) <= MaxOrdinal) then Failure(DateOverflow)
    else Success((Ordinal(s) - EpochOrdinal) * 86400 + s.hour * 3600 + s.minute * 60 + s.second)
  }

  /** The seconds decode back into the day and the clock: the day count since
      the epoch, then hour, minute and second. */
  lemma StampSecondsDecode(s: Stamp)
    requires StampSeconds(s).Success?
    ensures var t := StampSeconds(s).value;
      && t / 86400 == Ordinal(s) - EpochOrdinal
      && (t % 86400) / 3600 == s.hour
      && (t % 86400) % 3600 / 60 == s.minute
      && (t % 86400) % 60 == s.second
  {
    var t := StampSeconds(s).value;
    var tod := s.hour * 3600 + s.minute * 60 + s.second;
    assert t == (Ordinal(s) - EpochOrdinal) * 86400 + tod && 0 <= tod < 86400;
    assert t % 86400 == tod;
  }

  /** The epoch stamp is second 0. */
  lemma EpochIsZero()
    ensures StampSeconds(Stamp(1970, 1, 0, 0, 0)) == Success(0)
  {
    OrdinalConstants();
  }

  // ---------------------------------------------------------------------
  // get_glm_file_meta

  datatype FileMeta = FileMeta(startSsue: int, endSsue: int, satId: int)

  /** The five fields of a time stamp that ends `i - 13` characters before
      the end of the name. */
  function ReadStamp(f: string, i: nat): (r: Option<Stamp>)
    requires i >= 13
  {
    match (ParseDigits(NegSlice(f, i, i - 4)), ParseDigits(NegSlice(f, i - 4, i - 7)),
           ParseDigits(NegSlice(f, i - 7, i - 9)), ParseDigits(NegSlice(f, i - 9, i - 11)),
           ParseDigits(NegSlice(f, i - 11, i - 13)))
    case (Some(y), Some(d), Some(h), Some(m), Some(s)) => Some(Stamp(y, d, h, m, s))
    case _ => None
  }

  /** `get_glm_file_meta`: the satellite from `[-53:-51]`, the start stamp
      from `[-49:-36]` and the end stamp from `[-33:-20]`, converted to
      seconds since the epoch. The Python errors come in the order the code
      raises them: the satellite and start integers, the start date, the end
      integers, the end date. */
  function GetGlmFileMeta(f: string): (r: Result<FileMeta, MetaError>)
  {
    match (ParseDigits(NegSlice(f, 53, 51)), ReadStamp(f, 49))
    case (Some(sat), Some(start)) =>
      (match StampSeconds(start)
       case Failure(e) => Failure(e)
       case Success(startSsue) =>
         match ReadStamp(f, 33)
         case None => Failure(NotAnInteger)
         case Some(end) =>
           match StampSeconds(end)
           case Failure(e) => Failure(e)
           case Success(endSsue) => Success(FileMeta(startSsue, endSsue, sat)))
    case _ => Failure(NotAnInteger)
  }

  /** The digits of a stamp in a GLM file name, followed by `rest`:
      `yyyy ddd hh mm ss`. */
  function StampThen(s: Stamp, rest: string): (r: string)
    requires 1 <= s.year <= 9999 && 0 <= s.doy < 1000 && 0 <= s.hour < 100 && 0 <= s.minute < 100 && 0 <= s.second < 100
  {
    Padded(s.year, 4) + (Padded(s.doy, 3) + (Padded(s.hour, 2) + (Padded(s.minute, 2) + (Padded(s.second, 2) + rest))))
  }

  predicate NameableStamp(s: Stamp)
  {
    ValidClock(s) && 0 <= s.doy < 1000
  }

  /** A GLM file name: `<prefix>G<sat>_s<start><tenth>_e<end><tenth>_c<created>.nc`,
      where the prefix ends in `G` and the creation stamp has 14 digits. */
  function GlmFileName(prefix: string, sat: nat, start: Stamp, end: Stamp, startTenth: char, endTenth: char,
                       created: string): (f: string)
    requires sat < 100 && NameableStamp(start) && NameableStamp(end)
  {
    prefix + (Padded(sat, 2) + ("_s" + StartTail(start, end, startTenth, endTenth, created)))
  }

  lemma PaddedRead(n: nat, w: nat)
    requires 1 <= w && n < Pow10(w)
    ensures |Padded(n, w)| == w && ParseDigits(Padded(n, w)) == Some(n)
  {
    PaddedLength(n, w);
  }

  /** The five fields of `a + (b + (c + (d + (e + rest))))` at the offsets
      `ReadStamp` uses. */
  lemma FieldSlices(a: string, b: string, c: string, d: string, e: string, rest: string)
    requires |a| == 4 && |b| == 3 && |c| == 2 && |d| == 2 && |e| == 2
    ensures var i, t := 13 + |rest|, a + (b + (c + (d + (e + rest))));
      && NegSlice(t, i, i - 4) == a && NegSlice(t, i - 4, i - 7) == b && NegSlice(t, i - 7, i - 9) == c
      && NegSlice(t, i - 9, i - 11) == d && NegSlice(t, i - 11, i - 13) == e
  {
    var i := 13 + |rest|;
    var t4 := e + rest;
    var t3 := d + t4;
    var t2 := c + t3;
    var t1 := b + t2;
    TakeHead(a, t1, i, i - 4);
    DropPrefix(a, t1, i - 4, i - 7);
    TakeHead(b, t2, i - 4, i - 7);
    DropPrefix(a, t1, i - 7, i - 9);
    DropPrefix(b, t2, i - 7, i - 9);
    TakeHead(c, t3, i - 7, i - 9);
    DropPrefix(a, t1, i - 9, i - 11);
    DropPrefix(b, t2, i - 9, i - 11);
    DropPrefix(c, t3, i - 9, i - 11);
    TakeHead(d, t4, i - 9, i - 11);
    DropPrefix(a, t1, i - 11, i - 13);
    DropPrefix(b, t2, i - 11, i - 13);
    DropPrefix(c, t3, i - 11, i - 13);
    DropPrefix(d, t4, i - 11, i - 13);
    TakeHead(e, rest, i - 11, i - 13);
  }

  /** Five readable fields make a stamp. */
  lemma ReadStampFrom(f: string, i: nat, s: Stamp)
    requires i >= 13
    requires ParseDigits(NegSlice(f, i, i - 4)) == Some(s.year) && ParseDigits(NegSlice(f, i - 4, i - 7)) == Some(s.doy)
    requires ParseDigits(NegSlice(f, i - 7, i - 9)) == Some(s.hour) && ParseDigits(NegSlice(f, i - 9, i - 11)) == Some(s.minute)
    requires ParseDigits(NegSlice(f, i - 11, i - 13)) == Some(s.second)
    ensures ReadStamp(f, i) == Some(s)
  {
  }

  /** Reading a stamp back from its digits. */
  lemma ReadStampThen(s: Stamp, rest: string)
    requires NameableStamp(s)
    ensures |StampThen(s, rest)| == 13 + |rest|
    ensures ReadStamp(StampThen(s, rest), 13 + |rest|) == Some(s)
  {
    assert Pow10(4) == 10000 && Pow10(3) == 1000 && Pow10(2) == 100;
    PaddedRead(s.year, 4);
    PaddedRead(s.doy, 3);
    PaddedRead(s.hour, 2);
    PaddedRead(s.minute, 2);
    PaddedRead(s.second, 2);
    FieldSlices(Padded(s.year, 4), Padded(s.doy, 3), Padded(s.hour, 2), Padded(s.minute, 2), Padded(s.second, 2), rest);
    ReadStampFrom(StampThen(s, rest), 13 + |rest|, s);
  }

  /** `f` ends with `t`. */
  predicate EndsWith(f: string, t: string)
  {
    |t| <= |f| && f[|f| - |t|..] == t
  }

  lemma EndsWithConcat(a: string, t: string, u: string)
    requires EndsWith(t, u)
    ensures EndsWith(a + t, u)
  {
    assert (a + t)[|a + t| - |u|..] == t[|t| - |u|..];
  }

  /** A slice counted from the end reads only the end of the string. */
  lemma NegSliceEndsWith(f: string, t: string, i: nat, j: nat)
    requires EndsWith(f, t) && j < i <= |t|
    ensures NegSlice(f, i, j) == NegSlice(t, i, j)
  {
    var o := |f| - |t|;
    forall m | 0 <= m < |t|
      ensures f[o + m] == t[m]
    {
      assert f[o..][m] == f[o + m];
    }
    assert f[|f| - i..|f| - j] == t[|t| - i..|t| - j];
  }

  lemma ReadStampEndsWith(f: string, t: string, i: nat)
    requires EndsWith(f, t) && 13 <= i <= |t|
    ensures ReadStamp(f, i) == ReadStamp(t, i)
  {
    NegSliceEndsWith(f, t, i, i - 4);
    NegSliceEndsWith(f, t, i - 4, i - 7);
    NegSliceEndsWith(f, t, i - 7, i - 9);
    NegSliceEndsWith(f, t, i - 9, i - 11);
    NegSliceEndsWith(f, t, i - 11, i - 13);
  }

  /** The tail of a GLM file name from the end stamp on. */
  function EndTail(end: Stamp, endTenth: char, created: string): (t: string)
    requires NameableStamp(end)
  {
    StampThen(end, [endTenth] + ("_c" + (created + ".nc")))
  }

  /** The tail of a GLM file name from the start stamp on. */
  function StartTail(start: Stamp, end: Stamp, startTenth: char, endTenth: char, created: string): (t: string)
    requires NameableStamp(start) && NameableStamp(end)
  {
    StampThen(start, [startTenth] + ("_e" + EndTail(end, endTenth, created)))
  }

  lemma NameEnd(prefix: string, sat: nat, start: Stamp, end: Stamp, startTenth: char, endTenth: char, created: string)
    requires sat < 100 && NameableStamp(start) && NameableStamp(end) && |created| == 14
    ensures ReadStamp(GlmFileName(prefix, sat, start, end, startTenth, endTenth, created), 33) == Some(end)
  {
    var e := EndTail(end, endTenth, created);
    ReadStampThen(end, [endTenth] + ("_c" + (created + ".nc")));
    assert EndsWith(e, e);
    EndsWithConcat("_e", e, e);
    EndsWithConcat([startTenth], "_e" + e, e);
    var x := [startTenth] + ("_e" + e);
    EndsWithConcat(Padded(start.second, 2), x, e);
    EndsWithConcat(Padded(start.minute, 2), Padded(start.second, 2) + x, e);
    EndsWithConcat(Padded(start.hour, 2), Padded(start.minute, 2) + (Padded(start.second, 2) + x), e);
    EndsWithConcat(Padded(start.doy, 3), Padded(start.hour, 2) + (Padded(start.minute, 2) + (Padded(start.second, 2) + x)), e);
    var st := StartTail(start, end, startTenth, endTenth, created);
    EndsWithConcat(Padded(start.year, 4), Padded(start.doy, 3) + (Padded(start.hour, 2) + (Padded(start.minute, 2) + (Padded(start.second, 2) + x))), e);
    EndsWithConcat("_s", st, e);
    EndsWithConcat(Padded(sat, 2), "_s" + st, e);
    EndsWithConcat(prefix, Padded(sat, 2) + ("_s" + st), e);
    ReadStampEndsWith(GlmFileName(prefix, sat, start, end, startTenth, endTenth, created), e, 33);
  }

  lemma NameStart(prefix: string, sat: nat, start: Stamp, end: Stamp, startTenth: char, endTenth: char, created: string)
    requires sat < 100 && NameableStamp(start) && NameableStamp(end) && |created| == 14
    ensures ReadStamp(GlmFileName(prefix, sat, start, end, startTenth, endTenth, created), 49) == Some(start)
  {
    var e := EndTail(end, endTenth, created);
    ReadStampThen(end, [endTenth] + ("_c" + (created + ".nc")));
    var st := StartTail(start, end, startTenth, endTenth, created);
    ReadStampThen(start, [startTenth] + ("_e" + e));
    assert EndsWith(st, st);
    EndsWithConcat("_s", st, st);
    EndsWithConcat(Padded(sat, 2), "_s" + st, st);
    EndsWithConcat(prefix, Padded(sat, 2) + ("_s" + st), st);
    ReadStampEndsWith(GlmFileName(prefix, sat, start, end, startTenth, endTenth, created), st, 49);
  }

  lemma NameSat(prefix: string, sat: nat, start: Stamp, end: Stamp, startTenth: char, endTenth: char, created: string)
    requires sat < 100 && NameableStamp(start) && NameableStamp(end) && |created| == 14
    ensures ParseDigits(NegSlice(GlmFileName(prefix, sat, start, end, startTenth, endTenth, created), 53, 51)) == Some(sat)
  {
    var e := EndTail(end, endTenth, created);
    ReadStampThen(end, [endTenth] + ("_c" + (created + ".nc")));
    var st := StartTail(start, end, startTenth, endTenth, created);
    ReadStampThen(start, [startTenth] + ("_e" + e));
    assert Pow10(2) == 100;
    PaddedRead(sat, 2);
    var s0 := Padded(sat, 2) + ("_s" + st);
    DropPrefix(prefix, s0, 53, 51);
    TakeHead(Padded(sat, 2), "_s" + st, 53, 51);
  }

  /** The three readings give the meta data, or the first date error. */
  lemma MetaFromReads(f: string, sat: nat, start: Stamp, end: Stamp)
    requires ParseDigits(NegSlice(f, 53, 51)) == Some(sat)
    requires ReadStamp(f, 49) == Some(start) && ReadStamp(f, 33) == Some(end)
    ensures StampSeconds(start).Success? && StampSeconds(end).Success? ==>
      GetGlmFileMeta(f) == Success(FileMeta(StampSeconds(start).value, StampSeconds(end).value, sat))
    ensures StampSeconds(start).Failure? ==> GetGlmFileMeta(f) == Failure(StampSeconds(start).error)
    ensures StampSeconds(start).Success? && StampSeconds(end).Failure? ==> GetGlmFileMeta(f) == Failure(StampSeconds(end).error)
  {
  }

  /** A name that follows the GLM naming convention yields its satellite and
      the seconds of its start and end stamps, or the error of the first stamp
      whose day falls outside the range of `datetime`. */
  lemma GlmFileMetaOfName(prefix: string, sat: nat, start: Stamp, end: Stamp, startTenth: char, endTenth: char,
                          created: string)
    requires sat < 100 && NameableStamp(start) && NameableStamp(end) && |created| == 14
    ensures var r := GetGlmFileMeta(GlmFileName(prefix, sat, start, end, startTenth, endTenth, created));
      && (StampSeconds(start).Success? && StampSeconds(end).Success? ==>
          r == Success(FileMeta(StampSeconds(start).value, StampSeconds(end).value, sat)))
      && (StampSeconds(start).Failure? ==> r == Failure(StampSeconds(start).error))
      && (StampSeconds(start).Success? && StampSeconds(end).Failure? ==> r == Failure(StampSeconds(end).error))
  {
    NameSat(prefix, sat, start, end, startTenth, endTenth, created);
    NameStart(prefix, sat, start, end, startTenth, endTenth, created);
    NameEnd(prefix, sat, start, end, startTenth, endTenth, created);
    MetaFromReads(GlmFileName(prefix, sat, start, end, startTenth, endTenth, created), sat, start, end);
  }

  // ---------------------------------------------------------------------
  // cleanup_files

  /** The keep rule for one queued event date: an event in the latter half of
      its interval keeps files that start up to half an interval after it,
      one in the first half keeps files that end up to half an interval
      before it. */
  predicate KeepFor(m: FileMeta, d: real)
  {
    var half := GlmConfig.ProcessIntervalS / 2.0;
    if UtilHelpers.InGlmFileLatterHalf(d) then m.startSsue as real - half <= d && m.endSsue as real > d
    else m.startSsue as real <= d && m.endSsue as real + half > d
  }

  /** A file whose span holds the event date is kept; every kept file lies
      within half an interval of the date. */
  lemma KeepForWindow(m: FileMeta, d: real)
    ensures m.startSsue as real <= d < m.endSsue as real ==> KeepFor(m, d)
    ensures KeepFor(m, d) ==> m.startSsue as real - 10.0 <= d < m.endSsue as real + 10.0
  {
  }

  /** Some queued event date keeps the file (`any(keep_file_list)`). */
  predicate Needed(m: FileMeta, events: seq<real>)
  {
    exists k :: 0 <= k < |events| && KeepFor(m, events[k])
  }

  /** The inner loop of `cleanup_files` over the queued event dates. */
  method NeededBy(m: FileMeta, events: seq<real>) returns (keep: bool)
    ensures keep <==> Needed(m, events)
  {
    keep := false;
    var k := 0;
    while k < |events|
      invariant 0 <= k <= |events|
      invariant keep <==> exists j :: 0 <= j < k && KeepFor(m, events[j])
    {
      if KeepFor(m, events[k]) {
        keep := true;
      }
      k := k + 1;
    }
  }

  /** What `os.remove` does to a file: it is removed, or a PermissionError is
      caught and the file stays, or another OSError escapes. */
  datatype RemoveOutcome = Removed | PermissionDenied | OtherOsError

  datatype CleanupError = MetaFailed(e: MetaError) | RemoveFailed(file: string)

  /** What the loop body of `cleanup_files` does with one file: keep its
      slot (`true`), clear it (`false`), or raise. */
  function FileStep(f: string, events: seq<real>, outcome: string -> RemoveOutcome,
                    meta: string -> Result<FileMeta, MetaError>): (r: Result<bool, CleanupError>)
  {
    match meta(f)
    case Failure(e) => Failure(MetaFailed(e))
    case Success(m) =>
      if Needed(m, events) then Success(true)
      else
        match outcome(f)
        case Removed => Success(false)
        case PermissionDenied => Success(true)
        case OtherOsError => Failure(RemoveFailed(f))
  }

  /** `cleanup_files`: the files that are still needed or could not be
      deleted, in their original order; the first exception ends the call. */
  function Cleanup(files: seq<string>, events: seq<real>, outcome: string -> RemoveOutcome,
                    meta: string -> Result<FileMeta, MetaError>): (r: Result<seq<string>, CleanupError>)
  {
    if files == [] then Success([])
    else
      match FileStep(files[0], events, outcome, meta)
      case Failure(e) => Failure(e)
      case Success(keep) =>
        var rest := Cleanup(files[1..], events, outcome, meta);
        if keep then Prepend(files[0], rest) else rest
  }

  function Prepend(f: string, r: Result<seq<string>, CleanupError>): (r': Result<seq<string>, CleanupError>)
  {
    match r
    case Success(fs) => Success([f] + fs)
    case Failure(e) => Failure(e)
  }

  /** A file stays after a cleanup: its name is readable and an event needs it
      or deleting it was refused. */
  predicate Retained(f: string, events: seq<real>, outcome: string -> RemoveOutcome,
                    meta: string -> Result<FileMeta, MetaError>)
  {
    FileStep(f, events, outcome, meta) == Success(true)
  }

  /** A file makes the cleanup raise. */
  predicate Raises(f: string, events: seq<real>, outcome: string -> RemoveOutcome,
                    meta: string -> Result<FileMeta, MetaError>)
  {
    FileStep(f, events, outcome, meta).Failure?
  }

  /** The file is kept exactly when its name is readable and an event needs
      it or deleting it was refused; it raises exactly when its name cannot be
      read or the delete fails otherwise. */
  lemma FileStepCases(f: string, events: seq<real>, outcome: string -> RemoveOutcome,
                    meta: string -> Result<FileMeta, MetaError>)
    ensures Retained(f, events, outcome, meta) <==>
      meta(f).Success? && (Needed(meta(f).value, events) || outcome(f) == PermissionDenied)
    ensures Raises(f, events, outcome, meta) <==>
      meta(f).Failure? || (!Needed(meta(f).value, events) && outcome(f) == OtherOsError)
  {
  }

  /** `t` is `s` with some elements left out. */
  predicate IsSubsequence(t: seq<string>, s: seq<string>)
    decreases |s|
  {
    if t == [] then true
    else if s == [] then false
    else (t[0] == s[0] && IsSubsequence(t[1..], s[1..])) || IsSubsequence(t, s[1..])
  }

  /** The cleanup raises exactly when some file raises; otherwise the result is
      a subsequence of the input holding exactly the retained files. */
  lemma {:induction false} CleanupProperties(files: seq<string>, events: seq<real>, outcome: string -> RemoveOutcome,
                                             meta: string -> Result<FileMeta, MetaError>)
    ensures Cleanup(files, events, outcome, meta).Failure? <==>
      exists k :: 0 <= k < |files| && Raises(files[k], events, outcome, meta)
    ensures Cleanup(files, events, outcome, meta).Success? ==>
      IsSubsequence(Cleanup(files, events, outcome, meta).value, files)
    ensures Cleanup(files, events, outcome, meta).Success? ==>
      forall f :: f in Cleanup(files, events, outcome, meta).value <==> f in files && Retained(f, events, outcome, meta)
  {
    if files != [] {
      var rest := files[1..];
      CleanupProperties(rest, events, outcome, meta);
      assert forall k :: 1 <= k < |files| ==> files[k] == rest[k - 1];
      assert forall f :: f in files <==> f == files[0] || f in rest;
      var r := Cleanup(files, events, outcome, meta);
      if r.Success? {
        var rr := Cleanup(rest, events, outcome, meta).value;
        if FileStep(files[0], events, outcome, meta) == Success(true) {
          assert r.value == [files[0]] + rr;
          assert r.value[1..] == rr;
        } else {
          assert r.value == rr;
        }
      }
    }
  }

  /** The kept slots of the list, in order. */
  function Somes(slots: seq<Option<string>>): (fs: seq<string>)
  {
    if slots == [] then []
    else
      var init := Somes(slots[..|slots| - 1]);
      match slots[|slots| - 1]
      case Some(f) => init + [f]
      case None => init
  }

  /** `cleanup_files`: the list slot of each deleted file is set to `None`,
      then the slots still holding a name are returned. The exception of a
      file name that cannot be read, or of a failed delete other than a
      PermissionError, ends the call. */
  method CleanupFiles(files: seq<string>, events: seq<real>, outcome: string -> RemoveOutcome)
    returns (r: Result<seq<string>, CleanupError>)
    ensures r == Cleanup(files, events, outcome, GetGlmFileMeta)
  {
    r := CleanupFilesWith(files, events, outcome, GetGlmFileMeta);
  }

  /** The loop of `cleanup_files`, with the reader of file names as a
      parameter (`get_glm_file_meta` in the program). */
  method CleanupFilesWith(files: seq<string>, events: seq<real>, outcome: string -> RemoveOutcome,
                          meta: string -> Result<FileMeta, MetaError>)
    returns (r: Result<seq<string>, CleanupError>)
    ensures r == Cleanup(files, events, outcome, meta)
  {
    var slots := seq(|files|, k requires 0 <= k < |files| => Some(files[k]));
    var i := 0;
    assert slots[..0] == [] && files[0..] == files;
    PrependAllEmpty(Cleanup(files, events, outcome, meta));
    while i < |files|
      invariant 0 <= i <= |files| && |slots| == |files|
      invariant forall k :: i <= k < |files| ==> slots[k] == Some(files[k])
      invariant Cleanup(files, events, outcome, meta)
        == PrependAll(Somes(slots[..i]), Cleanup(files[i..], events, outcome, meta))
    {
      CleanupUnfold(files[i..], events, outcome, meta);
      assert files[i..][0] == files[i] && files[i..][1..] == files[i + 1..];
      var step := CleanupOne(files[i], events, outcome, meta);
      if step.Failure? {
        return Failure(step.error);
      }
      if step.value {
        KeepSlot(slots, i, files[i], Cleanup(files[i + 1..], events, outcome, meta));
      } else {
        var before := slots;
        slots := slots[i := None];
        assert slots[..i + 1] == before[..i] + [None];
        SomesSnoc(before[..i], None);
      }
      i := i + 1;
    }
    assert slots[..i] == slots;
    PrependAllSuccess(Somes(slots));
    r := Success(Somes(slots));
  }

  /** The body of the loop of `cleanup_files` for one file: read its times,
      test them against every queued date, and delete the file when no date
      needs it. `false` means the file was deleted. */
  method CleanupOne(f: string, events: seq<real>, outcome: string -> RemoveOutcome,
                    meta: string -> Result<FileMeta, MetaError>)
    returns (step: Result<bool, CleanupError>)
    ensures step == FileStep(f, events, outcome, meta)
  {
    var m := meta(f);
    if m.Failure? {
      return Failure(MetaFailed(m.error));
    }
    var keep := NeededBy(m.value, events);
    if !keep {
      match outcome(f)
      case Removed =>
        return Success(false);
      case PermissionDenied =>
      case OtherOsError =>
        return Failure(RemoveFailed(f));
    }
    return Success(true);
  }

  /** One step of the cleanup. */
  lemma CleanupUnfold(files: seq<string>, events: seq<real>, outcome: string -> RemoveOutcome,
                      meta: string -> Result<FileMeta, MetaError>)
    requires files != []
    ensures Cleanup(files, events, outcome, meta) ==
      match FileStep(files[0], events, outcome, meta)
      case Failure(e) => Failure(e)
      case Success(keep) =>
        if keep then Prepend(files[0], Cleanup(files[1..], events, outcome, meta))
        else Cleanup(files[1..], events, outcome, meta)
  {
  }

  lemma SomesSnoc(xs: seq<Option<string>>, y: Option<string>)
    ensures Somes(xs + [y]) == Somes(xs) + (match y case Some(f) => [f] case None => [])
  {
    assert (xs + [y])[..|xs|] == xs;
  }

  /** A file whose slot stays joins the kept prefix. */
  lemma KeepSlot(slots: seq<Option<string>>, i: nat, f: string, rest: Result<seq<string>, CleanupError>)
    requires i < |slots| && slots[i] == Some(f)
    ensures PrependAll(Somes(slots[..i]), Prepend(f, rest)) == PrependAll(Somes(slots[..i + 1]), rest)
  {
    assert slots[..i + 1] == slots[..i] + [Some(f)];
    SomesSnoc(slots[..i], Some(f));
    if rest.Success? {
      assert Somes(slots[..i]) + ([f] + rest.value) == Somes(slots[..i]) + [f] + rest.value;
    }
  }

  function PrependAll(fs: seq<string>, r: Result<seq<string>, CleanupError>): (r': Result<seq<string>, CleanupError>)
  {
    match r
    case Success(rest) => Success(fs + rest)
    case Failure(e) => Failure(e)
  }

  lemma PrependAllEmpty(r: Result<seq<string>, CleanupError>)
    ensures PrependAll([], r) == r
  {
    if r.Success? {
      assert [] + r.value == r.value;
    }
  }

  lemma PrependAllSuccess(fs: seq<string>)
    ensures PrependAll(fs, Success([])) == Success(fs)
  {
    assert fs + [] == fs;
  }
}
