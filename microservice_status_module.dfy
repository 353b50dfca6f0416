/** The viewer's store of service statuses: the list of services with the
    viewer itself first and the server second, the mutations that update
    it, and the getters that grade its logs. `Date.now()` and `Date.parse`
    are parameters. */
module MicroserviceStatusModule {
  import opened Text
  import ST = StatusTypes
  import TimeHelpers

  /** The grades of `LogState`. */
  datatype LogState = DebugState | InfoState | WarningState | ErrorState | OK

  const Viewer: nat := 0
  const Server: nat := 1

  /** How long the server may stay silent before it counts as down. */
  const HeartbeatTimeoutMs: real := 30000.0

  const HeartbeatReceived: string := "Heart beat received"

  /** `arr[0] = x`: the first element replaced, or created in an empty array. */
  function SetFirst(s: seq<string>, x: string): (r: seq<string>)
    ensures |r| >= 1 && r[0] == x && r[1..] == if s == [] then [] else s[1..]
  {
    if s == [] then [x] else s[0 := x]
  }

  // ---------------------------------------------------------------------
  // PUSH_VIEWER_LOG

  /** `logs.unshift(log)`, then `logs.length = maxLogs` when longer. */
  function PushLog(logs: seq<string>, log: string, maxLogs: nat): (r: seq<string>)
    ensures |r| == if |logs| + 1 > maxLogs then maxLogs else |logs| + 1
    ensures |r| > 0 ==> r[0] == log && r[1..] == logs[..|r| - 1]
  {
    var l := [log] + logs;
    assert l[1..] == logs;
    if |l| > maxLogs then l[..maxLogs] else l
  }

  // ---------------------------------------------------------------------
  // UPDATE_STATUS

  /** `findIndex` by name: the first position with the name, or -1. */
  function FindByName(list: seq<ST.MicroserviceStatus>, name: string): (i: int)
    ensures -1 <= i < |list|
    ensures i >= 0 ==> list[i].name == name && forall j :: 0 <= j < i ==> list[j].name != name
    ensures i == -1 ==> forall j :: 0 <= j < |list| ==> list[j].name != name
  {
    if list == [] then -1
    else
      var i := FindByName(list[..|list| - 1], name);
      if i >= 0 then i else if list[|list| - 1].name == name then |list| - 1 else -1
  }

  /** One status of `UPDATE_STATUS`: a new name is appended; a known one
      replaces the first entry with that name, which keeps its viewed time
      stamp. */
  function Upsert(list: seq<ST.MicroserviceStatus>, s: ST.MicroserviceStatus): (r: seq<ST.MicroserviceStatus>)
    ensures |r| >= |list|
  {
    var i := FindByName(list, s.name);
    if i < 0 then list + [s] else list[i := s.(viewedTimeStamp := list[i].viewedTimeStamp)]
  }

  function UpsertAll(list: seq<ST.MicroserviceStatus>, statuses: seq<ST.MicroserviceStatus>): (r: seq<ST.MicroserviceStatus>)
    ensures |r| >= |list|
  {
    if statuses == [] then list else Upsert(UpsertAll(list, statuses[..|statuses| - 1]), statuses[|statuses| - 1])
  }

  /** A status whose name is known replaces the first entry of that name,
      keeping its viewed time stamp, and leaves every other entry alone. */
  lemma UpsertKnown(list: seq<ST.MicroserviceStatus>, s: ST.MicroserviceStatus, i: nat)
    requires i < |list| && list[i].name == s.name && forall j :: 0 <= j < i ==> list[j].name != s.name
    ensures var r := Upsert(list, s);
      |r| == |list| && r[i] == s.(viewedTimeStamp := list[i].viewedTimeStamp) &&
      forall j :: 0 <= j < |list| && j != i ==> r[j] == list[j]
  {
  }

  /** A status with a new name is appended. */
  lemma UpsertNew(list: seq<ST.MicroserviceStatus>, s: ST.MicroserviceStatus)
    requires forall j :: 0 <= j < |list| ==> list[j].name != s.name
    ensures Upsert(list, s) == list + [s]
  {
  }

  /** Some entry of the list has the name. */
  ghost predicate HasName(list: seq<ST.MicroserviceStatus>, name: string) {
    exists j :: 0 <= j < |list| && list[j].name == name
  }

  lemma HasNameSnoc(list: seq<ST.MicroserviceStatus>, s: ST.MicroserviceStatus, name: string)
    ensures HasName(list + [s], name) <==> HasName(list, name) || s.name == name
  {
    var l := list + [s];
    assert l[|list|] == s;
    if HasName(list, name) {
      var j :| 0 <= j < |list| && list[j].name == name;
      assert l[j] == list[j];
    }
  }

  /** One update adds the status's name to the names on the list and keeps
      the others. */
  lemma UpsertNames(list: seq<ST.MicroserviceStatus>, s: ST.MicroserviceStatus, name: string)
    ensures HasName(Upsert(list, s), name) <==> HasName(list, name) || s.name == name
  {
    var r := Upsert(list, s);
    var i := FindByName(list, s.name);
    if i < 0 {
      HasNameSnoc(list, s, name);
    } else {
      assert r[i].name == s.name;
      if HasName(list, name) {
        var j :| 0 <= j < |list| && list[j].name == name;
        assert r[j].name == list[j].name;
      }
      if HasName(r, name) {
        var j :| 0 <= j < |r| && r[j].name == name;
        assert j == i || r[j] == list[j];
      }
    }
  }

  /** The names on the list after an update are the names before and those
      of the statuses. */
  lemma {:induction false} UpsertAllNames(list: seq<ST.MicroserviceStatus>, statuses: seq<ST.MicroserviceStatus>, name: string)
    ensures HasName(UpsertAll(list, statuses), name) <==> HasName(list, name) || HasName(statuses, name)
    decreases |statuses|
  {
    if statuses != [] {
      var p := statuses[..|statuses| - 1];
      var s := statuses[|statuses| - 1];
      UpsertAllNames(list, p, name);
      UpsertNames(UpsertAll(list, p), s, name);
      assert statuses == p + [s];
      HasNameSnoc(p, s, name);
    }
  }

  // ---------------------------------------------------------------------
  // HEARTBEAT and CHECK_HEARTBEAT

  /** The server entry after a heartbeat at `now`. */
  function AfterHeartbeat(s: ST.MicroserviceStatus, now: real): ST.MicroserviceStatus {
    s.(lastUpdateTimeStamp := now, receivedLastResponse := true, status := SetFirst(s.status, HeartbeatReceived))
  }

  /** The first status line of a server found silent for `elapsed` ms. */
  function DownMessage(elapsed: real): string {
    "Server might be down, last heartbeat " + TimeHelpers.MsToTimestamp(elapsed) + " seconds ago"
  }

  /** The server entry after a check at `now`: it counts as responding when
      its last update is less than the timeout ago; when it does not, its
      first status line says since when it is silent. */
  function AfterCheck(s: ST.MicroserviceStatus, now: real): (r: ST.MicroserviceStatus)
    ensures r.receivedLastResponse <==> now - s.lastUpdateTimeStamp < HeartbeatTimeoutMs
  {
    var elapsed := now - s.lastUpdateTimeStamp;
    var checked := s.(receivedLastResponse := elapsed < HeartbeatTimeoutMs);
    if checked.receivedLastResponse then checked
    else checked.(status := SetFirst(checked.status, DownMessage(elapsed)))
  }

  /** The server entry update of `CHECK_HEARTBEAT`. */
  method CheckServer(server: ST.MicroserviceStatus, now: real) returns (s: ST.MicroserviceStatus)
    ensures s == AfterCheck(server, now)
  {
    s := server;
    var timeSinceLastHeartbeat := now - s.lastUpdateTimeStamp;
    s := s.(receivedLastResponse := timeSinceLastHeartbeat < HeartbeatTimeoutMs);
    if !s.receivedLastResponse {
      s := s.(status := SetFirst(s.status, DownMessage(timeSinceLastHeartbeat)));
    }
  }

  /** A check less than the timeout after a heartbeat finds the server up,
      with the heartbeat line in place; a check after that finds it down. */
  lemma HeartbeatThenCheck(s: ST.MicroserviceStatus, beat: real, now: real)
    ensures var r := AfterCheck(AfterHeartbeat(s, beat), now);
      (now - beat < HeartbeatTimeoutMs ==> r.receivedLastResponse && r.status[0] == HeartbeatReceived) &&
      (now - beat >= HeartbeatTimeoutMs ==> !r.receivedLastResponse && r.status[0] == DownMessage(now - beat))
  {
  }

  // ---------------------------------------------------------------------
  // LOG_STATUS, MICROSERVICE_STATUS, MICROSERVICE_CHAIN_STATUS

  /** Whether a log line is newer than the viewed time stamp. */
  predicate Newer(log: string, viewed: real, dateParse: string -> real) {
    TimestampOf(log, dateParse) > viewed
  }

  function TimestampOf(log: string, dateParse: string -> real): real {
    TimeHelpers.ParseTimestamp(log, dateParse)
  }

  /** `LOG_STATUS`: debug and info lines are fine; a warning or an error
      counts only when it is newer than the viewed time stamp. */
  function LogStatus(log: string, viewed: real, dateParse: string -> real): (r: LogState)
    ensures r == OK || r == WarningState || r == ErrorState
    ensures r != OK ==> !ST.Mentions(log, ST.Debug) && !ST.Mentions(log, ST.Info) && Newer(log, viewed, dateParse)
    ensures r == WarningState ==> ST.Mentions(log, ST.Warning)
    ensures r == ErrorState ==> ST.Mentions(log, ST.Error)
  {
    if ST.Mentions(log, ST.Debug) || ST.Mentions(log, ST.Info) then OK
    else if ST.Mentions(log, ST.Warning) && Newer(log, viewed, dateParse) then WarningState
    else if ST.Mentions(log, ST.Error) && Newer(log, viewed, dateParse) then ErrorState
    else OK
  }

  /** The grades of a service's logs. */
  function LogStates(s: ST.MicroserviceStatus, dateParse: string -> real): (r: seq<LogState>)
    ensures |r| == |s.logs|
  {
    seq(|s.logs|, k requires 0 <= k < |s.logs| => LogStatus(s.logs[k], s.viewedTimeStamp, dateParse))
  }

  /** The worst of a list of grades: an error over a warning over fine. */
  function Worst(states: seq<LogState>): (r: LogState)
    ensures r == ErrorState <==> ErrorState in states
    ensures r == WarningState <==> ErrorState !in states && WarningState in states
    ensures r == OK <==> ErrorState !in states && WarningState !in states
  {
    if ErrorState in states then ErrorState else if WarningState in states then WarningState else OK
  }

  /** `MICROSERVICE_STATUS`: a service that did not answer is in error;
      otherwise it is graded by the worst of its logs. */
  function ServiceState(s: ST.MicroserviceStatus, dateParse: string -> real): LogState {
    if !s.receivedLastResponse then ErrorState else Worst(LogStates(s, dateParse))
  }

  /** Once the logs are marked viewed at a time no older than any of them,
      a service that answered is fine again. */
  lemma ViewedLogsAreFine(s: ST.MicroserviceStatus, time: real, dateParse: string -> real)
    requires s.receivedLastResponse
    requires forall k :: 0 <= k < |s.logs| ==> TimestampOf(s.logs[k], dateParse) <= time
    ensures ServiceState(s.(viewedTimeStamp := time), dateParse) == OK
  {
    var states := LogStates(s.(viewedTimeStamp := time), dateParse);
    forall k | 0 <= k < |states| ensures states[k] == OK {
      assert !Newer(s.logs[k], time, dateParse);
    }
  }

  // ---------------------------------------------------------------------
  // LOG_COUNTS_FOR_SERVICE

  /** The five counters of `LOG_COUNTS_FOR_SERVICE`. */
  datatype Counts = Counts(debug: nat, info: nat, warning: nat, error: nat, ok: nat)

  function Total(c: Counts): nat {
    c.debug + c.info + c.warning + c.error + c.ok
  }

  function Bump(c: Counts, st: LogState): (r: Counts)
    ensures Total(r) == Total(c) + 1
    ensures r.debug == c.debug + (if st == DebugState then 1 else 0)
    ensures r.ok == c.ok + (if st == OK then 1 else 0)
  {
    match st
    case DebugState => c.(debug := c.debug + 1)
    case InfoState => c.(info := c.info + 1)
    case WarningState => c.(warning := c.warning + 1)
    case ErrorState => c.(error := c.error + 1)
    case OK => c.(ok := c.ok + 1)
  }

  /** The grade a log adds to the counts, the debug marker being the text
      the getter looks for. */
  function Classify(log: string, viewed: real, dateParse: string -> real, debugMarker: string): (r: LogState)
    ensures r != OK
    ensures r == DebugState <==> Contains(log, debugMarker)
  {
    if Contains(log, debugMarker) then DebugState
    else if ST.Mentions(log, ST.Info) then InfoState
    else if ST.Mentions(log, ST.Warning) && Newer(log, viewed, dateParse) then WarningState
    else if ST.Mentions(log, ST.Error) && Newer(log, viewed, dateParse) then ErrorState
    else InfoState
  }

  function CountStates(states: seq<LogState>): (c: Counts)
    ensures Total(c) == |states|
  {
    if states == [] then Counts(0, 0, 0, 0, 0)
    else Bump(CountStates(states[..|states| - 1]), states[|states| - 1])
  }

  /** The grades of a list of logs, in order. */
  function Classified(logs: seq<string>, viewed: real, dateParse: string -> real, debugMarker: string): (r: seq<LogState>)
    ensures |r| == |logs|
  {
    if logs == [] then []
    else Classified(logs[..|logs| - 1], viewed, dateParse, debugMarker) + [Classify(logs[|logs| - 1], viewed, dateParse, debugMarker)]
  }

  /** The marker the getter as written looks for. */
  const DebugMarkerAsWritten: string := "(degug)"

  /** The number of lines that hold the marker. */
  function CountMarked(logs: seq<string>, marker: string): nat {
    if logs == [] then 0
    else CountMarked(logs[..|logs| - 1], marker) + (if Contains(logs[|logs| - 1], marker) then 1 else 0)
  }

  /** The counts of a list of logs are those of all but the last, bumped
      by the last one's grade. */
  lemma CountsSnoc(logs: seq<string>, viewed: real, dateParse: string -> real, marker: string)
    requires logs != []
    ensures var n := |logs| - 1;
      CountStates(Classified(logs, viewed, dateParse, marker)) ==
      Bump(CountStates(Classified(logs[..n], viewed, dateParse, marker)), Classify(logs[n], viewed, dateParse, marker))
  {
    var all := Classified(logs, viewed, dateParse, marker);
    assert all[..|logs| - 1] == Classified(logs[..|logs| - 1], viewed, dateParse, marker);
  }

  /** The debug count is the number of lines holding the debug marker the
      getter looks for. */
  lemma {:induction false} CountsDebugMarked(logs: seq<string>, viewed: real, dateParse: string -> real, marker: string)
    ensures CountStates(Classified(logs, viewed, dateParse, marker)).debug == CountMarked(logs, marker)
    decreases |logs|
  {
    if logs != [] {
      var p := logs[..|logs| - 1];
      CountsDebugMarked(p, viewed, dateParse, marker);
      CountsSnoc(logs, viewed, dateParse, marker);
    }
  }

  /** No log is counted as plain fine. */
  lemma {:induction false} CountsNoOk(logs: seq<string>, viewed: real, dateParse: string -> real, marker: string)
    ensures CountStates(Classified(logs, viewed, dateParse, marker)).ok == 0
    decreases |logs|
  {
    if logs != [] {
      CountsNoOk(logs[..|logs| - 1], viewed, dateParse, marker);
      CountsSnoc(logs, viewed, dateParse, marker);
    }
  }

  /** The counts as written: no line is ever counted as debug unless it
      holds the misspelt marker, so service logs, which say `(debug)`,
      count as info. */
  lemma {:induction false} CountsAsWrittenNoDebug(logs: seq<string>, viewed: real, dateParse: string -> real)
    requires forall k :: 0 <= k < |logs| ==> !Contains(logs[k], DebugMarkerAsWritten)
    ensures CountStates(Classified(logs, viewed, dateParse, DebugMarkerAsWritten)).debug == 0
    decreases |logs|
  {
    CountsDebugMarked(logs, viewed, dateParse, DebugMarkerAsWritten);
    NoneMarked(logs, DebugMarkerAsWritten);
  }

  lemma {:induction false} NoneMarked(logs: seq<string>, marker: string)
    requires forall k :: 0 <= k < |logs| ==> !Contains(logs[k], marker)
    ensures CountMarked(logs, marker) == 0
    decreases |logs|
  {
    if logs != [] {
      NoneMarked(logs[..|logs| - 1], marker);
    }
  }

  /** A line with the real marker and no other level is counted as info by
      the getter as written. */
  lemma DebugLineCountedAsInfo(log: string, viewed: real, dateParse: string -> real)
    requires ST.Mentions(log, ST.Debug) && !Contains(log, DebugMarkerAsWritten)
    requires !ST.Mentions(log, ST.Warning) && !ST.Mentions(log, ST.Error)
    ensures Classify(log, viewed, dateParse, DebugMarkerAsWritten) == InfoState
  {
  }

  /** With the marker spelt `(debug)`, every line that mentions the debug
      level is counted as debug, and the counts add up to the number of
      logs. */
  lemma CorrectedCountsDebug(logs: seq<string>, viewed: real, dateParse: string -> real)
    ensures var c := CountStates(Classified(logs, viewed, dateParse, ST.Marker(ST.Debug)));
      c.debug == CountMarked(logs, ST.Marker(ST.Debug)) && c.ok == 0 &&
      c.debug + c.info + c.warning + c.error == |logs|
  {
    CountsDebugMarked(logs, viewed, dateParse, ST.Marker(ST.Debug));
    CountsNoOk(logs, viewed, dateParse, ST.Marker(ST.Debug));
  }

  /** The grades of every service on the list, in order. */
  function ServiceStates(list: seq<ST.MicroserviceStatus>, dateParse: string -> real): (r: seq<LogState>)
    ensures |r| == |list|
  {
    seq(|list|, i requires 0 <= i < |list| => ServiceState(list[i], dateParse))
  }

  // ---------------------------------------------------------------------
  // The store

  class MicroserviceStatusStore {
    var latestVersion: bool
    var services: seq<ST.MicroserviceStatus>

    /** The viewer and the server entries are always there. */
    ghost predicate Valid()
      reads this
    {
      |services| >= 2
    }

    /** The initial state: the viewer, up, and the server, not heard of. */
    constructor(now: real)
      ensures Valid() && latestVersion
      ensures services == [
        ST.MicroserviceStatus("StarFall Viewer", [], [], now, true, 0.0),
        ST.MicroserviceStatus("StarFall Server", ["No heartbeat received"], [], 0.0, false, 0.0)]
    {
      latestVersion := true;
      services := [
        ST.MicroserviceStatus("StarFall Viewer", [], [], now, true, 0.0),
        ST.MicroserviceStatus("StarFall Server", ["No heartbeat received"], [], 0.0, false, 0.0)];
    }

    /** `PUSH_VIEWER_LOG`: the log goes first in the viewer's logs, which
        are cut to `maxLogs`. */
    method PushViewerLog(log: string, maxLogs: nat, now: real)
      requires Valid()
      modifies this
      ensures Valid() && latestVersion == old(latestVersion)
      ensures var v := old(services)[Viewer];
        services == old(services)[Viewer := v.(logs := PushLog(v.logs, log, maxLogs), lastUpdateTimeStamp := now)]
    {
      var v := services[Viewer];
      var logs := [log] + v.logs;
      if |logs| > maxLogs {
        logs := logs[..maxLogs];
      }
      services := services[Viewer := v.(logs := logs, lastUpdateTimeStamp := now)];
    }

    /** `SET_VIEWED_TIMESTAMP`. */
    method SetViewedTimestamp(time: real, index: nat)
      requires Valid() && index < |services|
      modifies this
      ensures Valid() && latestVersion == old(latestVersion)
      ensures services == old(services)[index := old(services)[index].(viewedTimeStamp := time)]
    {
      services := services[index := services[index].(viewedTimeStamp := time)];
    }

    /** `UPDATE_STATUS`. */
    method UpdateStatus(statuses: seq<ST.MicroserviceStatus>)
      requires Valid()
      modifies this
      ensures Valid() && latestVersion == old(latestVersion)
      ensures services == UpsertAll(old(services), statuses)
    {
      for t := 0 to |statuses|
        invariant services == UpsertAll(old(services), statuses[..t])
        invariant |services| >= 2 && latestVersion == old(latestVersion)
      {
        assert statuses[..t + 1][..t] == statuses[..t];
        var status := statuses[t];
        var i := FindByName(services, status.name);
        if i < 0 {
          services := services + [status];
        } else {
          services := services[i := status.(viewedTimeStamp := services[i].viewedTimeStamp)];
        }
      }
      assert statuses[..|statuses|] == statuses;
    }

    /** `HEARTBEAT`: the payload's version is compared with the viewer's
        own. */
    method Heartbeat(payloadVersion: string, version: string, now: real)
      requires Valid()
      modifies this
      ensures Valid() && latestVersion == (payloadVersion == version)
      ensures services == old(services)[Server := AfterHeartbeat(old(services)[Server], now)]
    {
      latestVersion := payloadVersion == version;
      var s := services[Server];
      services := services[Server := s.(lastUpdateTimeStamp := now, receivedLastResponse := true,
                                        status := SetFirst(s.status, HeartbeatReceived))];
    }

    /** `CHECK_HEARTBEAT`. */
    method CheckHeartbeat(now: real)
      requires Valid()
      modifies this
      ensures Valid() && latestVersion == old(latestVersion)
      ensures services == old(services)[Server := AfterCheck(old(services)[Server], now)]
    {
      var s := CheckServer(services[Server], now);
      services := services[Server := s];
    }

    /** `MICROSERVICE_STATUS(index)`: the loop stops at the first error. */
    method MicroserviceStatus(index: nat, dateParse: string -> real) returns (r: LogState)
      requires index < |services|
      ensures r == ServiceState(services[index], dateParse)
    {
      var s := services[index];
      if !s.receivedLastResponse {
        return ErrorState;
      }
      var states := LogStates(s, dateParse);
      r := OK;
      for log := 0 to |s.logs|
        invariant ErrorState !in states[..log]
        invariant r == if WarningState in states[..log] then WarningState else OK
      {
        assert states[..log + 1] == states[..log] + [states[log]];
        var st := LogStatus(s.logs[log], s.viewedTimeStamp, dateParse);
        if st == WarningState {
          r := WarningState;
        }
        if st == ErrorState {
          return ErrorState;
        }
      }
      assert states[..|s.logs|] == states;
    }

    /** `MICROSERVICE_CHAIN_STATUS`: the worst status of all the services. */
    method ChainStatus(dateParse: string -> real) returns (r: LogState)
      ensures r == Worst(ServiceStates(services, dateParse))
    {
      ghost var all := ServiceStates(services, dateParse);
      r := OK;
      for index := 0 to |services|
        invariant ErrorState !in all[..index]
        invariant r == if WarningState in all[..index] then WarningState else OK
      {
        assert all[..index + 1] == all[..index] + [all[index]];
        var st := MicroserviceStatus(index, dateParse);
        if st == WarningState {
          r := WarningState;
        }
        if st == ErrorState {
          return ErrorState;
        }
      }
      assert all[..|services|] == all;
    }

    /** `LOG_COUNTS_FOR_SERVICE(index)`, with the debug marker spelt as the
        service logs spell it. */
    method LogCountsForService(index: nat, dateParse: string -> real) returns (c: Counts)
      requires index < |services|
      ensures var s := services[index];
        c == CountStates(Classified(s.logs, s.viewedTimeStamp, dateParse, ST.Marker(ST.Debug)))
    {
      var s := services[index];
      c := Counts(0, 0, 0, 0, 0);
      for logIndex := 0 to |s.logs|
        invariant c == CountStates(Classified(s.logs[..logIndex], s.viewedTimeStamp, dateParse, ST.Marker(ST.Debug)))
      {
        assert s.logs[..logIndex + 1][..logIndex] == s.logs[..logIndex];
        var logMsg := s.logs[logIndex];
        var st := Classify(logMsg, s.viewedTimeStamp, dateParse, ST.Marker(ST.Debug));
        c := Bump(c, st);
      }
      assert s.logs[..|s.logs|] == s.logs;
    }
  }
}
