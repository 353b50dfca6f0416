/** The pure part of the server's status handler: turning the records of a
    status reply into the status lines and the log entries of a service.
    A JavaScript object is its list of keys in insertion order and their
    values. */
module StatusHandler {
  import opened Text
  import opened ArrayOps
  import opened StatusTypes

  /** A `StatusKey` record: its main and sub key and the status texts of
      its status list. */
  datatype StatusKey = StatusKey(mainKey: string, subKey: string, statusList: seq<string>)

  /** The sub key of the records that carry logs. */
  const RecentLogs: string := "Recent Logs"

  /** `getStatusList()[0]?.getStatus() || ''`. */
  function FirstStatus(k: StatusKey): (s: string)
    ensures |k.statusList| == 0 ==> s == ""
  {
    if |k.statusList| == 0 then "" else k.statusList[0]
  }

  /** The status line of a record, `main - sub : status`. */
  function StatusEntry(k: StatusKey): string {
    k.mainKey + " - " + k.subKey + " : " + FirstStatus(k)
  }

  /** The object key of a record, main and sub key run together. */
  function ObjectKey(k: StatusKey): string {
    k.mainKey + k.subKey
  }

  // ---------------------------------------------------------------------
  // aggregateStatus

  /** An object with string values: its keys in insertion order. */
  datatype StatusObject = StatusObject(order: seq<string>, values: map<string, string>)

  ghost predicate WellFormed(o: StatusObject) {
    Distinct(o.order) && forall key :: key in o.values <==> key in o.order
  }

  /** `obj[key] = v`: a new key goes last, an existing one keeps its place. */
  function Put(o: StatusObject, key: string, v: string): (r: StatusObject)
    requires WellFormed(o)
    ensures WellFormed(r)
  {
    if key in o.values then StatusObject(o.order, o.values[key := v])
    else StatusObject(o.order + [key], o.values[key := v])
  }

  /** The object after the records, the log records skipped. */
  function StatusObjectOf(keys: seq<StatusKey>): (o: StatusObject)
    ensures WellFormed(o)
  {
    if keys == [] then StatusObject([], map[])
    else
      var prev, k := StatusObjectOf(keys[..|keys| - 1]), keys[|keys| - 1];
      if k.subKey == RecentLogs then prev else Put(prev, ObjectKey(k), StatusEntry(k))
  }

  /** `Object.values(obj)`. */
  function Values(o: StatusObject): (r: seq<string>)
    requires WellFormed(o)
    ensures |r| == |o.order| && forall j :: 0 <= j < |r| ==> r[j] == o.values[o.order[j]]
  {
    seq(|o.order|, j requires 0 <= j < |o.order| => o.values[o.order[j]])
  }

  /** `aggregateStatus`. */
  method AggregateStatus(keys: seq<StatusKey>) returns (r: seq<string>)
    ensures r == Values(StatusObjectOf(keys))
  {
    var obj := StatusObject([], map[]);
    for i := 0 to |keys|
      invariant obj == StatusObjectOf(keys[..i])
    {
      assert keys[..i + 1][..i] == keys[..i];
      var k := keys[i];
      if k.subKey == RecentLogs {
        continue;
      }
      obj := Put(obj, ObjectKey(k), StatusEntry(k));
    }
    assert keys[..|keys|] == keys;
    r := Values(obj);
  }

  /** The object keys of the status records, in record order. */
  function StatusRecordKeys(keys: seq<StatusKey>): (r: seq<string>)
  {
    if keys == [] then []
    else
      var k := keys[|keys| - 1];
      StatusRecordKeys(keys[..|keys| - 1]) + (if k.subKey == RecentLogs then [] else [ObjectKey(k)])
  }

  /** One status line per distinct key, in the order the keys first
      appear. */
  lemma {:induction false} StatusOrderFirstSeen(keys: seq<StatusKey>)
    ensures StatusObjectOf(keys).order == FirstOccurrences(StatusRecordKeys(keys))
  {
    if keys != [] {
      var p := keys[..|keys| - 1];
      StatusOrderFirstSeen(p);
      var k := keys[|keys| - 1];
      var xs := StatusRecordKeys(keys);
      if k.subKey != RecentLogs {
        assert xs == StatusRecordKeys(p) + [ObjectKey(k)];
        assert xs[..|xs| - 1] == StatusRecordKeys(p) && xs[|xs| - 1] == ObjectKey(k);
        assert FirstOccurrences(xs) == if ObjectKey(k) in FirstOccurrences(StatusRecordKeys(p))
          then FirstOccurrences(StatusRecordKeys(p)) else FirstOccurrences(StatusRecordKeys(p)) + [ObjectKey(k)];
      } else {
        assert xs == StatusRecordKeys(p) + [];
        assert xs == StatusRecordKeys(p);
      }
    }
  }

  /** The status line kept for a key is that of the last status record
      with that key. */
  lemma {:induction false} LastRecordWins(keys: seq<StatusKey>, i: nat)
    requires i < |keys| && keys[i].subKey != RecentLogs
    requires forall j :: i < j < |keys| && keys[j].subKey != RecentLogs ==> ObjectKey(keys[j]) != ObjectKey(keys[i])
    ensures ObjectKey(keys[i]) in StatusObjectOf(keys).values
    ensures StatusObjectOf(keys).values[ObjectKey(keys[i])] == StatusEntry(keys[i])
    decreases |keys|
  {
    var n := |keys| - 1;
    var p := keys[..n];
    var prev, k := StatusObjectOf(p), keys[n];
    if i == n {
      assert StatusObjectOf(keys) == Put(prev, ObjectKey(k), StatusEntry(k));
      PutSets(prev, ObjectKey(k), StatusEntry(k));
    } else {
      assert p[i] == keys[i];
      forall j | i < j < |p| && p[j].subKey != RecentLogs ensures ObjectKey(p[j]) != ObjectKey(p[i]) {
        assert p[j] == keys[j];
      }
      LastRecordWins(p, i);
      if k.subKey != RecentLogs {
        assert StatusObjectOf(keys) == Put(prev, ObjectKey(k), StatusEntry(k));
        PutKeeps(prev, ObjectKey(k), StatusEntry(k), ObjectKey(keys[i]));
      } else {
        assert StatusObjectOf(keys) == prev;
      }
    }
  }

  lemma PutSets(o: StatusObject, key: string, v: string)
    requires WellFormed(o)
    ensures key in Put(o, key, v).values && Put(o, key, v).values[key] == v
  {
  }

  lemma PutKeeps(o: StatusObject, key: string, v: string, other: string)
    requires WellFormed(o) && other in o.values && other != key
    ensures other in Put(o, key, v).values && Put(o, key, v).values[other] == o.values[other]
  {
  }

  /** Every status line is the line of some status record. */
  lemma {:induction false} StatusLinesFromRecords(keys: seq<StatusKey>, key: string)
    requires key in StatusObjectOf(keys).values
    ensures exists i :: 0 <= i < |keys| && keys[i].subKey != RecentLogs && ObjectKey(keys[i]) == key &&
                        StatusObjectOf(keys).values[key] == StatusEntry(keys[i])
    decreases |keys|
  {
    var n := |keys| - 1;
    var p, k := keys[..n], keys[n];
    if k.subKey == RecentLogs || ObjectKey(k) != key {
      StatusLinesFromRecords(p, key);
      var i :| 0 <= i < |p| && p[i].subKey != RecentLogs && ObjectKey(p[i]) == key &&
               StatusObjectOf(p).values[key] == StatusEntry(p[i]);
      assert keys[i] == p[i];
    }
  }

  // ---------------------------------------------------------------------
  // aggregateLogs

  /** A line that names a level starts a new log entry. */
  predicate StartsEntry(line: string) {
    Mentions(line, Debug) || Mentions(line, Info) || Mentions(line, Warning) || Mentions(line, Error)
  }

  /** One line: a level line becomes a new entry, trimmed; any other line is
      appended with a newline to the last entry, which is first created
      empty when there is none. */
  function AddLine(logs: seq<string>, line: string): (r: seq<string>)
    ensures |r| >= 1
  {
    if StartsEntry(line) then logs + [Trim(line)]
    else
      var l := if logs == [] then [""] else logs;
      l[..|l| - 1] + [l[|l| - 1] + "\n" + line]
  }

  /** The lines of one log text, one after the other. */
  function AddLines(logs: seq<string>, lines: seq<string>): (r: seq<string>)
  {
    if lines == [] then logs else AddLine(AddLines(logs, lines[..|lines| - 1]), lines[|lines| - 1])
  }

  /** Whether a record's log text is used: a log record whose first status
      is a non-empty string. */
  predicate HasLogText(k: StatusKey) {
    k.subKey == RecentLogs && FirstStatus(k) != ""
  }

  /** The entries in the order they are built, over all the records. */
  function CollectLogs(keys: seq<StatusKey>): seq<string>
  {
    if keys == [] then []
    else
      var prev, k := CollectLogs(keys[..|keys| - 1]), keys[|keys| - 1];
      if HasLogText(k) then AddLines(prev, Split(FirstStatus(k), '\n')) else prev
  }

  function Reverse<T>(s: seq<T>): (r: seq<T>)
    ensures |r| == |s| && forall i :: 0 <= i < |s| ==> r[i] == s[|s| - 1 - i]
  {
    seq(|s|, i requires 0 <= i < |s| => s[|s| - 1 - i])
  }

  /** The inner loop of `aggregateLogs`: the lines of one log text. */
  method AppendLogLines(logs: seq<string>, lines: seq<string>) returns (r: seq<string>)
    ensures r == AddLines(logs, lines)
  {
    r := logs;
    for t := 0 to |lines|
      invariant r == AddLines(logs, lines[..t])
    {
      assert lines[..t + 1][..t] == lines[..t];
      var line := lines[t];
      if StartsEntry(line) {
        r := r + [Trim(line)];
      } else {
        if |r| == 0 {
          r := r + [""];
        }
        r := r[..|r| - 1] + [r[|r| - 1] + "\n" + line];
      }
    }
    assert lines[..|lines|] == lines;
  }

  /** `aggregateLogs`: the entries of every log record, newest first. */
  method AggregateLogs(keys: seq<StatusKey>) returns (r: seq<string>)
    ensures r == Reverse(CollectLogs(keys))
  {
    var logs: seq<string> := [];
    for i := 0 to |keys|
      invariant logs == CollectLogs(keys[..i])
    {
      assert keys[..i + 1][..i] == keys[..i];
      var k := keys[i];
      if k.subKey != RecentLogs {
        continue;
      }
      var logStatus := FirstStatus(k);
      if logStatus == "" {
        continue;
      }
      logs := AppendLogLines(logs, Split(logStatus, '\n'));
    }
    assert keys[..|keys|] == keys;
    r := Reverse(logs);
  }

  /** The number of level lines among `lines`. */
  function CountStarts(lines: seq<string>): nat
  {
    if lines == [] then 0
    else CountStarts(lines[..|lines| - 1]) + (if StartsEntry(lines[|lines| - 1]) then 1 else 0)
  }

  /** Each level line adds one entry; the other lines add none, except that
      a first line without a level, with no entry yet, creates one. */
  lemma {:induction false} AddLinesCount(logs: seq<string>, lines: seq<string>)
    ensures |AddLines(logs, lines)| ==
      |logs| + CountStarts(lines) + (if logs == [] && lines != [] && !StartsEntry(lines[0]) then 1 else 0)
    decreases |lines|
  {
    if lines != [] {
      var p := lines[..|lines| - 1];
      AddLinesCount(logs, p);
      if p != [] {
        assert p[0] == lines[0];
      }
    }
  }

  /** `r` keeps the entries of `logs`, the last one possibly with more text
      at its end. */
  ghost predicate Extends(logs: seq<string>, r: seq<string>)
    requires logs != []
  {
    var n := |logs| - 1;
    |r| >= |logs| && r[..n] == logs[..n] && |r[n]| >= |logs[n]| && r[n][..|logs[n]|] == logs[n]
  }

  lemma AddLineExtends(logs: seq<string>, q: seq<string>, line: string)
    requires logs != [] && Extends(logs, q)
    ensures Extends(logs, AddLine(q, line))
  {
    var n := |logs| - 1;
    var r := AddLine(q, line);
    if StartsEntry(line) {
      assert r[..|q|] == q;
      assert r[..n] == q[..n];
    } else {
      assert r[..|q| - 1] == q[..|q| - 1];
      if |q| - 1 == n {
        var last := q[n] + "\n" + line;
        assert r[n] == last;
        assert last[..|logs[n]|] == q[n][..|logs[n]|];
      } else {
        assert r[..n] == q[..n];
        assert r[n] == q[n];
      }
    }
  }

  /** Entries only grow: the earlier entries stay as they were and the last
      one only gains text at its end. */
  lemma {:induction false} AddLinesExtends(logs: seq<string>, lines: seq<string>)
    requires logs != []
    ensures var r := AddLines(logs, lines);
      |r| >= |logs| && r[..|logs| - 1] == logs[..|logs| - 1] &&
      |r[|logs| - 1]| >= |logs[|logs| - 1]| && r[|logs| - 1][..|logs[|logs| - 1]|] == logs[|logs| - 1]
    decreases |lines|
  {
    if lines != [] {
      var p := lines[..|lines| - 1];
      AddLinesExtends(logs, p);
      AddLineExtends(logs, AddLines(logs, p), lines[|lines| - 1]);
    } else {
      assert Extends(logs, logs);
    }
  }

  /** A line without a level and no entry yet gives the entry `"\n" + line`. */
  lemma OrphanLine(line: string)
    requires !StartsEntry(line)
    ensures AddLine([], line) == ["\n" + line]
  {
    assert "" + "\n" + line == "\n" + line;
  }

  // ---------------------------------------------------------------------
  // processStatusReply

  /** `processStatusReply`: the status of a service that answered, at time
      `now`, not yet viewed. */
  function ProcessStatusReply(name: string, records: seq<StatusKey>, now: real): (s: MicroserviceStatus)
    ensures s.name == name && s.receivedLastResponse && s.viewedTimeStamp == 0.0 && s.lastUpdateTimeStamp == now
    ensures s.status == Values(StatusObjectOf(records))
    ensures s.logs == Reverse(CollectLogs(records))
  {
    MicroserviceStatus(name, Values(StatusObjectOf(records)), Reverse(CollectLogs(records)), now, true, 0.0)
  }
}
