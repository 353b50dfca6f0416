/** The Google Cloud side of the trigger generator: the bucket path and file
    pattern for a satellite and time, the satellites publishing at a time,
    the download history of a satellite, and the alignment of a download
    window to file boundaries. The gcloud subprocess calls and downloads are
    not part of this module. */
module GcloudHelpers {
  import opened Wrappers
  import opened Text
  import GlmConfig

  // ---------------------------------------------------------------------
  // construct_file_dir_and_name

  /** How long a GLM netCDF file is, in seconds. */
  const GlmFileLengthS: int := 20

  /** The `ValueError`s `construct_file_dir_and_name` raises, in the order it checks them. */
  datatype DirError = SatIdError | YearError | DoyError | HourError

  /** The digits after `_s` in a file name: year, zero-filled day of year,
      hour and minute, and the second when it is a file boundary. */
  function TimeDigits(year: nat, doy: nat, hour: nat, minute: nat, second: int): string
  {
    NatToString(year) + Padded(doy, 3) + Padded(hour, 2) + Padded(minute, 2)
    + (if second in {0, 20, 40} then Padded(second as nat, 2) else "")
  }

  /** `construct_file_dir_and_name`: the bucket folder of an hour, narrowed to a
      file-name prefix and a `*` wildcard when a minute in [0, 60) is given
      (the default minute and second are -1). */
  function ConstructFileDirAndName(satId: int, year: int, doy: int, hour: int, minute: int, second: int)
    : (r: Result<string, DirError>)
    ensures satId !in GlmConfig.SatIdNums() ==> r == Failure(SatIdError)
    ensures satId in GlmConfig.SatIdNums() && year < 2018 ==> r == Failure(YearError)
    ensures satId in GlmConfig.SatIdNums() && year >= 2018 && !(0 < doy < 367) ==> r == Failure(DoyError)
    ensures satId in GlmConfig.SatIdNums() && year >= 2018 && 0 < doy < 367 && !(0 <= hour < 24)
      ==> r == Failure(HourError)
    ensures r.Success? <==> satId in GlmConfig.SatIdNums() && year >= 2018 && 0 < doy < 367 && 0 <= hour < 24
  {
    GlmConfig.SatIdNumsValue();
    if satId !in GlmConfig.SatIdNums() then Failure(SatIdError)
    else if year < 2018 then Failure(YearError)
    else if !(0 < doy < 367) then Failure(DoyError)
    else if !(0 <= hour < 24) then Failure(HourError)
    else
      Success(GcloudPath(satId, year, doy, hour, minute, second))
  }

  /** The path of a validated request: the hour folder, then the file pattern
      when the minute is in [0, 60). */
  function GcloudPath(satId: nat, year: nat, doy: nat, hour: nat, minute: int, second: int): string
  {
    var dirEnd := "/" + NatToString(year) + "/" + Padded(doy, 3) + "/" + Padded(hour, 2);
    var tail := if 0 <= minute < 60 then "/" + FileName(satId, year, doy, hour, minute, second) else "";
    "gs://gcp-public-data-goes-" + NatToString(satId) + "/GLM-L2-LCFA" + (dirEnd + tail)
  }

  /** The file-name pattern added for a minute in [0, 60), ending in a wildcard. */
  function FileName(satId: nat, year: nat, doy: nat, hour: nat, minute: nat, second: int): string
  {
    "OR_GLM-L2-LCFA_G" + NatToString(satId) + "_s" + TimeDigits(year, doy, hour, minute, second) + "*"
  }

  lemma DigitsHaveNoSlash(s: string)
    requires AllDigits(s)
    ensures '/' !in s
  {
  }

  /** Appending a zero-filled number of at most `w` digits shifts by `w` places. */
  lemma AppendPadded(prefix: string, n: nat, w: nat)
    requires AllDigits(prefix) && n < Pow10(w) && w >= 1
    ensures AllDigits(prefix + Padded(n, w)) && |prefix + Padded(n, w)| == |prefix| + w
    ensures DecimalValue(prefix + Padded(n, w)) == DecimalValue(prefix) * Pow10(w) + n
  {
    PaddedLength(n, w);
    DecimalValueConcat(prefix, Padded(n, w));
  }

  lemma TimeDigitsAreDigits(year: nat, doy: nat, hour: nat, minute: nat, second: int)
    ensures AllDigits(TimeDigits(year, doy, hour, minute, second))
  {
  }

  /** The digits of the year, day, hour and minute read back as the
      number yyyy ddd hh mm. */
  lemma MinuteDigitsValue(year: nat, doy: nat, hour: nat, minute: nat)
    requires doy < 1000 && hour < 100 && minute < 100
    ensures var m := NatToString(year) + Padded(doy, 3) + Padded(hour, 2) + Padded(minute, 2);
      AllDigits(m) && |m| == |NatToString(year)| + 7 &&
      DecimalValue(m) == ((year * 1000 + doy) * 100 + hour) * 100 + minute
  {
    var y := NatToString(year);
    assert Pow10(3) == 1000 && Pow10(2) == 100;
    DecimalValueOfNatToString(year);
    var yd := y + Padded(doy, 3);
    AppendPaddedBy(y, doy, 3, 1000);
    var v1 := year * 1000 + doy;
    assert DecimalValue(yd) == v1;
    var ydh := yd + Padded(hour, 2);
    AppendPaddedBy(yd, hour, 2, 100);
    var v2 := v1 * 100 + hour;
    assert DecimalValue(ydh) == v2;
    AppendPaddedBy(ydh, minute, 2, 100);
  }

  /** The time digits read back as the number yyyy ddd hh mm [ss]. */
  lemma TimeDigitsValue(year: nat, doy: nat, hour: nat, minute: nat, second: int)
    requires doy < 1000 && hour < 100 && minute < 100 && (second in {0, 20, 40} ==> second < 100)
    ensures AllDigits(TimeDigits(year, doy, hour, minute, second))
    ensures second in {0, 20, 40} ==>
      DecimalValue(TimeDigits(year, doy, hour, minute, second))
      == (((year * 1000 + doy) * 100 + hour) * 100 + minute) * 100 + second
    ensures second !in {0, 20, 40} ==>
      DecimalValue(TimeDigits(year, doy, hour, minute, second)) == ((year * 1000 + doy) * 100 + hour) * 100 + minute
    ensures |TimeDigits(year, doy, hour, minute, second)|
      == |NatToString(year)| + 7 + (if second in {0, 20, 40} then 2 else 0)
  {
    var m := NatToString(year) + Padded(doy, 3) + Padded(hour, 2) + Padded(minute, 2);
    MinuteDigitsValue(year, doy, hour, minute);
    if second in {0, 20, 40} {
      SecondDigitsValue(m, second as nat);
      assert TimeDigits(year, doy, hour, minute, second) == m + Padded(second as nat, 2);
    } else {
      assert m + "" == m;
      assert TimeDigits(year, doy, hour, minute, second) == m;
    }
  }

  /** Two more digits for the second. */
  lemma SecondDigitsValue(m: string, second: nat)
    requires AllDigits(m) && second < 100
    ensures AllDigits(m + Padded(second, 2)) && |m + Padded(second, 2)| == |m| + 2
    ensures DecimalValue(m + Padded(second, 2)) == DecimalValue(m) * 100 + second
  {
    assert Pow10(2) == 100;
    AppendPaddedBy(m, second, 2, 100);
  }

  /** `AppendPadded` with the power of ten written out. */
  lemma AppendPaddedBy(prefix: string, n: nat, w: nat, p: nat)
    requires AllDigits(prefix) && w >= 1 && p == Pow10(w) && n < p
    ensures AllDigits(prefix + Padded(n, w)) && |prefix + Padded(n, w)| == |prefix| + w
    ensures DecimalValue(prefix + Padded(n, w)) == DecimalValue(prefix) * p + n
  {
    AppendPadded(prefix, n, w);
  }

  /** The year, day and hour folders and what follows them. */
  lemma SplitDirEnd(y: string, d: string, h: string, tail: string)
    requires '/' !in y && '/' !in d
    ensures Split(y + "/" + d + "/" + h + tail, '/') == [y, d] + Split(h + tail, '/')
  {
    assert y + "/" + d + "/" + h + tail == y + "/" + (d + "/" + (h + tail));
    SplitPrefix(y, '/', d + "/" + (h + tail));
    SplitPrefix(d, '/', h + tail);
  }

  /** The product folder, then the date folders. */
  lemma SplitProduct(g: string, y: string, d: string, h: string, tail: string)
    requires '/' !in g && '/' !in y && '/' !in d
    ensures Split(g + ("/" + y + "/" + d + "/" + h + tail), '/') == [g, y, d] + Split(h + tail, '/')
  {
    assert g + ("/" + y + "/" + d + "/" + h + tail) == g + "/" + (y + "/" + d + "/" + h + tail);
    SplitPrefix(g, '/', y + "/" + d + "/" + h + tail);
    SplitDirEnd(y, d, h, tail);
  }

  /** The scheme and the bucket. */
  lemma SplitBucket(sat: string)
    requires '/' !in sat
    ensures Split("gs://gcp-public-data-goes-" + sat, '/') == ["gs:", "", "gcp-public-data-goes-" + sat]
  {
    var bucket := "gcp-public-data-goes-" + sat;
    SchemeRegroup(sat);
    BucketHasNoSlash(sat);
    SchemeHasNoSlash();
    SplitTwoSeparators("gs:", "", bucket, '/');
  }

  lemma SchemeRegroup(sat: string)
    ensures "gs://gcp-public-data-goes-" + sat == "gs:" + "/" + ("" + "/" + ("gcp-public-data-goes-" + sat))
  {
    SchemePieces();
    RegroupScheme("gs:", "/", "", "gcp-public-data-goes-", sat);
  }

  lemma BucketHasNoSlash(sat: string)
    requires '/' !in sat
    ensures '/' !in "gcp-public-data-goes-" + sat
  {
    assert '/' !in "gcp-public-data-goes-";
  }

  lemma SchemeHasNoSlash()
    ensures '/' !in "gs:"
  {
  }

  lemma RegroupScheme(a: string, b: string, c: string, e: string, f: string)
    ensures (a + b + (c + b + e)) + f == a + b + (c + b + (e + f))
  {
  }

  /** The string shape of a bucket path, split on '/'. */
  lemma SplitPath(sat: string, y: string, d: string, h: string, tail: string)
    requires '/' !in sat && '/' !in y && '/' !in d
    ensures Split("gs://gcp-public-data-goes-" + sat + "/GLM-L2-LCFA" + ("/" + y + "/" + d + "/" + h + tail), '/')
      == ["gs:", "", "gcp-public-data-goes-" + sat, "GLM-L2-LCFA", y, d] + Split(h + tail, '/')
  {
    var p := "gs://gcp-public-data-goes-" + sat;
    var x := "/" + y + "/" + d + "/" + h + tail;
    ProductPieces();
    LiteralsHaveNoSlash();
    assert p + "/GLM-L2-LCFA" + x == p + "/" + ("GLM-L2-LCFA" + x);
    SplitConcat(p, '/', "GLM-L2-LCFA" + x);
    SplitBucket(sat);
    SplitProduct("GLM-L2-LCFA", y, d, h, tail);
  }

  /** The last pieces: the hour folder, then the file pattern when there is one. */
  lemma SplitTail(h: string, tail: string, file: string)
    requires '/' !in h && '/' !in file && (tail == "" || tail == "/" + file)
    ensures Split(h + tail, '/') == [h] + (if tail == "" then [] else [file])
  {
    if tail == "" {
      assert h + tail == h;
      SplitWithout(h, '/');
    } else {
      assert h + tail == h + "/" + file;
      SplitPrefix(h, '/', file);
      SplitWithout(file, '/');
    }
  }

  /** The '/'-separated pieces of a path. */
  function PathPieces(satId: nat, year: nat, doy: nat, hour: nat, minute: int, second: int): seq<string>
  {
    ["gs:", "", "gcp-public-data-goes-" + NatToString(satId), "GLM-L2-LCFA", NatToString(year), Padded(doy, 3)]
    + ([Padded(hour, 2)] + (if 0 <= minute < 60 then [FileName(satId, year, doy, hour, minute, second)] else []))
  }

  lemma SplitIntoPieces(satId: int, year: int, doy: int, hour: int, minute: int, second: int)
    requires ConstructFileDirAndName(satId, year, doy, hour, minute, second).Success?
    ensures satId >= 0 && year >= 0 && doy >= 0 && hour >= 0
    ensures Split(ConstructFileDirAndName(satId, year, doy, hour, minute, second).value, '/')
      == PathPieces(satId, year, doy, hour, minute, second)
  {
    GlmConfig.SatIdNumsValue();
    var sat, y, d, h := NatToString(satId), NatToString(year), Padded(doy, 3), Padded(hour, 2);
    DigitsHaveNoSlash(sat);
    DigitsHaveNoSlash(y);
    DigitsHaveNoSlash(d);
    DigitsHaveNoSlash(h);
    var file := if 0 <= minute < 60 then FileName(satId, year, doy, hour, minute, second) else "";
    var tail := if 0 <= minute < 60 then "/" + file else "";
    if 0 <= minute < 60 {
      FileNameHasNoSlash(satId, year, doy, hour, minute, second);
    }
    SplitPath(sat, y, d, h, tail);
    SplitTail(h, tail, file);
  }

  /** The pieces read back as the satellite, year, day of year and hour. */
  lemma PathPiecesFields(satId: nat, year: nat, doy: nat, hour: nat, minute: int, second: int)
    requires doy < 1000 && hour < 100
    ensures var parts := PathPieces(satId, year, doy, hour, minute, second);
      && (|parts| == 8 <==> 0 <= minute < 60) && (|parts| == 7 <==> !(0 <= minute < 60))
      && parts[2] == "gcp-public-data-goes-" + NatToString(satId)
      && AllDigits(parts[4]) && DecimalValue(parts[4]) == year
      && AllDigits(parts[5]) && |parts[5]| == 3 && DecimalValue(parts[5]) == doy
      && AllDigits(parts[6]) && |parts[6]| == 2 && DecimalValue(parts[6]) == hour
  {
    var parts := PathPieces(satId, year, doy, hour, minute, second);
    var y, d, h := NatToString(year), Padded(doy, 3), Padded(hour, 2);
    assert parts[4] == y && parts[5] == d && parts[6] == h;
    assert Pow10(3) == 1000 && Pow10(2) == 100;
    PaddedLength(doy, 3);
    PaddedLength(hour, 2);
    DecimalValueOfNatToString(year);
  }

  /** The path splits on '/' into the bucket, the product, and the year, day
      and hour folders, whose digits read back as the inputs; a file pattern
      follows exactly when the minute is in [0, 60). */
  lemma ConstructFileDirAndNameFields(satId: int, year: int, doy: int, hour: int, minute: int, second: int)
    requires ConstructFileDirAndName(satId, year, doy, hour, minute, second).Success?
    ensures var parts := Split(ConstructFileDirAndName(satId, year, doy, hour, minute, second).value, '/');
      && (|parts| == 8 <==> 0 <= minute < 60) && (|parts| == 7 <==> !(0 <= minute < 60))
      && parts[2] == "gcp-public-data-goes-" + NatToString(satId)
      && AllDigits(parts[4]) && DecimalValue(parts[4]) == year
      && AllDigits(parts[5]) && |parts[5]| == 3 && DecimalValue(parts[5]) == doy
      && AllDigits(parts[6]) && |parts[6]| == 2 && DecimalValue(parts[6]) == hour
  {
    SplitIntoPieces(satId, year, doy, hour, minute, second);
    PathPiecesFields(satId, year, doy, hour, minute, second);
  }

  lemma FileNameHasNoSlash(satId: nat, year: nat, doy: nat, hour: nat, minute: nat, second: int)
    ensures '/' !in FileName(satId, year, doy, hour, minute, second)
  {
    TimeDigitsAreDigits(year, doy, hour, minute, second);
    DigitsHaveNoSlash(TimeDigits(year, doy, hour, minute, second));
    DigitsHaveNoSlash(NatToString(satId));
    LiteralsHaveNoSlash();
  }

  lemma SchemePieces()
    ensures "gs://gcp-public-data-goes-" == "gs:" + "/" + ("" + "/" + "gcp-public-data-goes-")
  {
  }

  lemma ProductPieces()
    ensures "/GLM-L2-LCFA" == "/" + "GLM-L2-LCFA"
  {
  }

  lemma LiteralsHaveNoSlash()
    ensures '/' !in "gs:" && '/' !in "GLM-L2-LCFA" && '/' !in "gcp-public-data-goes-"
    ensures '/' !in "OR_GLM-L2-LCFA_G" && '/' !in "_s" && '/' !in "*"
  {
  }


  /** The file pattern ends in the wildcard. */
  lemma FilePatternEndsInWildcard(satId: int, year: int, doy: int, hour: int, minute: int, second: int)
    requires ConstructFileDirAndName(satId, year, doy, hour, minute, second).Success?
    ensures var r := ConstructFileDirAndName(satId, year, doy, hour, minute, second).value;
      (0 <= minute < 60 ==> r[|r| - 1] == '*') && (!(0 <= minute < 60) ==> r[|r| - 1] != '*')
  {
    var sat, y, d, h := NatToString(satId), NatToString(year), Padded(doy, 3), Padded(hour, 2);
    var dirEnd := "/" + y + "/" + d + "/" + h;
    var head := "gs://gcp-public-data-goes-" + sat + "/GLM-L2-LCFA";
    if 0 <= minute < 60 {
      var file := FileName(satId, year, doy, hour, minute, second);
      LastOfConcat("OR_GLM-L2-LCFA_G" + sat + "_s" + TimeDigits(year, doy, hour, minute, second), "*");
      LastOfConcat("/", file);
      LastOfConcat(dirEnd, "/" + file);
      LastOfConcat(head, dirEnd + ("/" + file));
    } else {
      LastOfConcat("/" + y + "/" + d + "/", h);
      assert dirEnd + "" == dirEnd;
      LastOfConcat(head, dirEnd);
      assert IsDigit(h[|h| - 1]);
    }
  }

  /** The last character of a concatenation is the last of its second part. */
  lemma LastOfConcat(a: string, b: string)
    requires |b| > 0
    ensures (a + b)[|a + b| - 1] == b[|b| - 1]
  {
  }

  // ---------------------------------------------------------------------
  // FileHistory

  /** The history of the files loaded for one satellite. The date is kept as
      seconds since the Unix epoch. */
  class FileHistory {
    var date: int
    var satId: int
    var filename: string

    constructor (date: int, satId: int, filename: string)
      ensures this.date == date && this.satId == satId && this.filename == filename
    {
      this.date := date;
      this.satId := satId;
      this.filename := filename;
    }

    method SetLastFilename(filename: string)
      modifies this
      ensures this.filename == filename
      ensures date == old(date) && satId == old(satId)
    {
      this.filename := filename;
    }

    /** Steps back one hour; the file name no longer applies and is cleared. */
    method Decrement()
      modifies this
      ensures filename == ""
      ensures date == old(date) - 3600
      ensures satId == old(satId)
    {
      filename := "";
      date := date - 3600;
    }
  }

  // ---------------------------------------------------------------------
  // get_available_satellite_ids

  /** A satellite record: a missing or empty start string skips the satellite,
      a missing or empty end string means it is still operational. */
  datatype SatRecord = SatRecord(id: int, start: Option<string>, end: Option<string>)

  /** 2100-01-01T00:00:00Z, the end assumed for operational satellites. */
  const FarFutureSsue: real := 4102444800.0

  predicate Present(s: Option<string>)
  {
    s.Some? && s.value != ""
  }

  /** `sat` publishes at time `t`; `toSsue` converts a "YYYYMMDDhhmmss" string. */
  predicate Available(sat: SatRecord, t: real, toSsue: string -> real)
  {
    Present(sat.start)
    && toSsue(sat.start.value) <= t
    && t < (if Present(sat.end) then toSsue(sat.end.value) else FarFutureSsue)
  }

  /** The ids of the satellites of `sats` publishing at `t`, in table order. */
  function AvailableIds(sats: seq<SatRecord>, t: real, toSsue: string -> real): seq<int>
  {
    if sats == [] then []
    else
      AvailableIds(sats[..|sats| - 1], t, toSsue)
      + (if Available(sats[|sats| - 1], t, toSsue) then [sats[|sats| - 1].id] else [])
  }

  /** An id is listed exactly when some satellite carrying it is available. */
  lemma {:induction false} AvailableIdsMembers(sats: seq<SatRecord>, t: real, toSsue: string -> real, id: int)
    ensures id in AvailableIds(sats, t, toSsue) <==> exists k :: 0 <= k < |sats| && sats[k].id == id && Available(sats[k], t, toSsue)
  {
    if sats != [] {
      AvailableIdsMembers(sats[..|sats| - 1], t, toSsue, id);
      var last := sats[|sats| - 1];
      if id in AvailableIds(sats, t, toSsue) && !(id in AvailableIds(sats[..|sats| - 1], t, toSsue)) {
        assert sats[|sats| - 1].id == id && Available(sats[|sats| - 1], t, toSsue);
      }
      if exists k :: 0 <= k < |sats| && sats[k].id == id && Available(sats[k], t, toSsue) {
        var k :| 0 <= k < |sats| && sats[k].id == id && Available(sats[k], t, toSsue);
        if k < |sats| - 1 {
          assert sats[..|sats| - 1][k] == sats[k];
        }
      }
    }
  }

  /** `get_available_satellite_ids`. */
  method GetAvailableSatelliteIds(startTimeSsue: real, sats: seq<SatRecord>, toSsue: string -> real)
    returns (ids: seq<int>)
    ensures ids == AvailableIds(sats, startTimeSsue, toSsue)
  {
    ids := [];
    var k := 0;
    while k < |sats|
      invariant 0 <= k <= |sats|
      invariant ids == AvailableIds(sats[..k], startTimeSsue, toSsue)
    {
      var sat := sats[k];
      assert sats[..k + 1][..k] == sats[..k];
      if !Present(sat.start) {
        k := k + 1;
        continue;
      }
      var startTime := toSsue(sat.start.value);
      var endTime := if Present(sat.end) then toSsue(sat.end.value) else FarFutureSsue;
      if startTime <= startTimeSsue < endTime {
        ids := ids + [sat.id];
      }
      k := k + 1;
    }
    assert sats[..k] == sats;
  }

  /** With the configured table, 2024-01-01T00:00:00Z lists GOES-16 and GOES-18
      (given the epoch seconds of the table's date strings). */
  lemma AvailableIn2024(toSsue: string -> real)
    requires toSsue("20180213161000") == 1518538200.0 && toSsue("20250407200340") == 1744056220.0
    requires toSsue("20181002162420") == 1538497460.0 && toSsue("20230110182009") == 1673374809.0
    requires toSsue("20221104212440") == 1667597080.0 && toSsue("20250115135500") == 1736949300.0
    ensures AvailableIds(TableRecords(), 1704067200.0, toSsue) == [16, 18]
  {
    var s := TableRecords();
    var t := 1704067200.0;
    assert s == [SatRecord(16, Some("20180213161000"), Some("20250407200340")),
                 SatRecord(17, Some("20181002162420"), Some("20230110182009")),
                 SatRecord(18, Some("20221104212440"), None),
                 SatRecord(19, Some("20250115135500"), None)];
    assert s[..1][..0] == [] && s[..2][..1] == s[..1] && s[..3][..2] == s[..2] && s[..4][..3] == s[..3];
    assert Available(s[0], t, toSsue) && !Available(s[1], t, toSsue);
    assert Available(s[2], t, toSsue) && !Available(s[3], t, toSsue);
    assert AvailableIds(s[..1], t, toSsue) == [16];
    assert AvailableIds(s[..2], t, toSsue) == [16];
    assert AvailableIds(s[..3], t, toSsue) == [16, 18];
    assert s[..4] == s;
  }

  /** The configured satellite table as records. */
  function TableRecords(): (s: seq<SatRecord>)
    ensures |s| == |GlmConfig.SatInfoTable|
  {
    seq(|GlmConfig.SatInfoTable|, k requires 0 <= k < |GlmConfig.SatInfoTable| =>
      SatRecord(GlmConfig.SatInfoTable[k].id, Some(GlmConfig.SatInfoTable[k].startString), GlmConfig.SatInfoTable[k].endString))
  }

  // ---------------------------------------------------------------------
  // alignment of the window start in get_list_for_specific_window

  /** Python `int(x)` on a float: truncation toward zero. */
  function Trunc(x: real): (i: int)
    ensures x >= 0.0 ==> i as real <= x < i as real + 1.0
    ensures x < 0.0 ==> i as real - 1.0 < x <= i as real
  {
    if x >= 0.0 then x.Floor else -((-x).Floor)
  }

  /** `time = int(start); time -= time % 20`: the start of the file holding the time. */
  function AlignedWindowStart(startTimeSsue: real): (t: int)
    ensures t % GlmFileLengthS == 0
    ensures t <= Trunc(startTimeSsue) < t + GlmFileLengthS
  {
    var i := Trunc(startTimeSsue);
    i - i % GlmFileLengthS
  }
}
