/** The viewer's event store: the event list with its add-or-update and
    delete, the selected event, the event filter with its saved copies,
    the platforms of the selected event built from database rows, and the
    count of unviewed events. The mutations and actions are methods of
    `EventStore`; the getters are functions. */
module EventModule {
  import opened Wrappers
  import opened EventTypes

  // ---------------------------------------------------------------------
  // Finding events

  /** `findIndex` on the event list: the first event with the id, or -1. */
  function FindEvent(events: seq<EventListItem>, id: string): (i: int)
    ensures -1 <= i < |events|
    ensures i >= 0 ==> events[i].eventId == id && forall j :: 0 <= j < i ==> events[j].eventId != id
    ensures i < 0 <==> forall j :: 0 <= j < |events| ==> events[j].eventId != id
  {
    if events == [] then -1
    else if events[0].eventId == id then 0
    else
      var k := FindEvent(events[1..], id);
      if k < 0 then -1 else k + 1
  }

  /** `SINGLE_EVENT_BY_ID`: `find` on the event list. */
  function SingleEventById(events: seq<EventListItem>, id: string): (r: Option<EventListItem>)
    ensures r.None? <==> forall e :: e in events ==> e.eventId != id
    ensures r.Some? ==> r.value in events && r.value.eventId == id
  {
    var i := FindEvent(events, id);
    if i < 0 then None else Some(events[i])
  }

  /** No event before index `i` has the id. */
  ghost predicate FirstWith(events: seq<EventListItem>, i: int, id: string)
    requires 0 <= i <= |events|
  {
    forall j :: 0 <= j < i ==> events[j].eventId != id
  }

  /** The first event with the id is what `findIndex` finds. */
  lemma FindEventAt(events: seq<EventListItem>, id: string, i: nat)
    requires i < |events| && events[i].eventId == id
    requires forall j :: 0 <= j < i ==> events[j].eventId != id
    ensures FindEvent(events, id) == i
  {
  }

  /** A found event is the first one with its id. */
  lemma SingleEventIsFirst(events: seq<EventListItem>, id: string)
    requires SingleEventById(events, id).Some?
    ensures exists i :: 0 <= i < |events| && events[i] == SingleEventById(events, id).value && FirstWith(events, i, id)
  {
    var i := FindEvent(events, id);
    assert events[i] == SingleEventById(events, id).value;
  }

  // ---------------------------------------------------------------------
  // ADD_UPDATE_EVENT_SUMMARY

  /** The event list after `ADD_UPDATE_EVENT_SUMMARY`: the first event with
      the new event's id is replaced in place, and a new id goes first. */
  function AddUpdate(events: seq<EventListItem>, e: EventListItem): (r: seq<EventListItem>)
    ensures (exists j :: 0 <= j < |events| && events[j].eventId == e.eventId) ==> |r| == |events|
    ensures (forall j :: 0 <= j < |events| ==> events[j].eventId != e.eventId) ==> r == [e] + events
  {
    var i := FindEvent(events, e.eventId);
    if i >= 0 then events[i := e] else [e] + events
  }

  /** After the update the event is what its id finds. */
  lemma AddUpdateFinds(events: seq<EventListItem>, e: EventListItem)
    ensures SingleEventById(AddUpdate(events, e), e.eventId) == Some(e)
  {
    var i := FindEvent(events, e.eventId);
    var r := AddUpdate(events, e);
    if i >= 0 {
      FindEventAt(r, e.eventId, i);
    } else {
      FindEventAt(r, e.eventId, 0);
    }
  }

  /** Any other id finds what it found before. */
  lemma AddUpdateKeepsOthers(events: seq<EventListItem>, e: EventListItem, id: string)
    requires id != e.eventId
    ensures SingleEventById(AddUpdate(events, e), id) == SingleEventById(events, id)
  {
    var i := FindEvent(events, e.eventId);
    var k := FindEvent(events, id);
    var r := AddUpdate(events, e);
    if i >= 0 {
      if k >= 0 {
        FindEventAt(r, id, k);
      } else {
        assert forall j :: 0 <= j < |r| ==> r[j].eventId != id;
      }
    } else if k >= 0 {
      assert r[k + 1] == events[k];
      FindEventAt(r, id, k + 1);
    } else {
      assert forall j :: 0 <= j < |r| ==> r[j].eventId != id;
    }
  }

  /** Updating with the same event twice is updating once. */
  lemma AddUpdateIdempotent(events: seq<EventListItem>, e: EventListItem)
    ensures AddUpdate(AddUpdate(events, e), e) == AddUpdate(events, e)
  {
    var r := AddUpdate(events, e);
    var i := FindEvent(r, e.eventId);
    AddUpdateFinds(events, e);
    assert r[i] == e;
    assert r[i := e] == r;
  }

  // ---------------------------------------------------------------------
  // DELETE_EVENT

  /** JavaScript `splice(start, 1)` on a list: a negative start counts from
      the end (and is clamped at 0), a start past the end removes
      nothing. */
  function SpliceOne<T>(s: seq<T>, start: int): (r: seq<T>)
    ensures |s| > 0 && -|s| <= start < |s| ==> |r| == |s| - 1
    ensures start >= |s| ==> r == s
  {
    var k := if start < 0 then (if |s| + start < 0 then 0 else |s| + start) else start;
    if k < |s| then s[..k] + s[k + 1..] else s
  }

  /** `DELETE_EVENT` as written: `findIndex` gives -1 for a missing id,
      never `undefined`, so the guard never fires and `splice(-1, 1)`
      runs. */
  function DeleteAsWritten(events: seq<EventListItem>, id: string): seq<EventListItem> {
    SpliceOne(events, FindEvent(events, id))
  }

  /** As written, deleting an id the list does not hold removes the last
      event. */
  lemma DeleteMissingRemovesLast(events: seq<EventListItem>, id: string)
    requires events != []
    requires forall e :: e in events ==> e.eventId != id
    ensures DeleteAsWritten(events, id) == events[..|events| - 1]
    ensures DeleteAsWritten(events, id) != events
  {
    assert FindEvent(events, id) == -1;
    assert |DeleteAsWritten(events, id)| == |events| - 1;
  }

  /** `DELETE_EVENT` as evidently intended: the first event with the id is
      removed, and a missing id leaves the list as it is. */
  function DeleteEvent(events: seq<EventListItem>, id: string): (r: seq<EventListItem>)
    ensures (forall e :: e in events ==> e.eventId != id) ==> r == events
    ensures (exists e :: e in events && e.eventId == id) ==> |r| == |events| - 1
  {
    var i := FindEvent(events, id);
    if i < 0 then events else events[..i] + events[i + 1..]
  }

  /** The deletion keeps every event of another id, in order, and the
      events it keeps are events of the list. */
  lemma DeleteKeepsOthers(events: seq<EventListItem>, id: string)
    ensures forall e :: e in DeleteEvent(events, id) ==> e in events
    ensures forall e :: e in events && e.eventId != id ==> e in DeleteEvent(events, id)
    ensures multiset(DeleteEvent(events, id)) <= multiset(events)
  {
    var i := FindEvent(events, id);
    if i >= 0 {
      assert events == events[..i] + [events[i]] + events[i + 1..];
      forall e | e in events && e.eventId != id ensures e in DeleteEvent(events, id) {
        var j :| 0 <= j < |events| && events[j] == e;
        if j < i {
          assert e == events[..i][j];
        } else {
          assert j > i;
          assert e == events[i + 1..][j - i - 1];
        }
      }
    }
  }

  /** Ids are unique in the list. */
  ghost predicate UniqueIds(events: seq<EventListItem>) {
    forall i, j :: 0 <= i < j < |events| ==> events[i].eventId != events[j].eventId
  }

  /** With unique ids the deleted id is gone afterwards. */
  lemma DeleteRemovesId(events: seq<EventListItem>, id: string)
    requires UniqueIds(events)
    ensures SingleEventById(DeleteEvent(events, id), id) == None
  {
    var i := FindEvent(events, id);
    var r := DeleteEvent(events, id);
    if i >= 0 {
      forall e | e in r ensures e.eventId != id {
        var j :| 0 <= j < |r| && r[j] == e;
        if j < i {
          assert e == events[j];
        } else {
          assert e == events[j + 1];
        }
      }
    }
  }

  // ---------------------------------------------------------------------
  // UNVIEWED_COUNT

  /** The `reduce` of `UNVIEWED_COUNT`, one fold step per event. */
  function UnviewedCount(events: seq<EventListItem>): (n: nat)
    ensures n <= |events|
  {
    if events == [] then 0
    else UnviewedCount(events[..|events| - 1]) + (if events[|events| - 1].userViewed then 0 else 1)
  }

  /** The events no user viewed, in list order. */
  function UnviewedEvents(events: seq<EventListItem>): seq<EventListItem> {
    if events == [] then []
    else
      var last := events[|events| - 1];
      UnviewedEvents(events[..|events| - 1]) + (if last.userViewed then [] else [last])
  }

  lemma {:induction false} UnviewedLength(events: seq<EventListItem>)
    ensures UnviewedCount(events) == |UnviewedEvents(events)|
  {
    if events != [] {
      UnviewedLength(events[..|events| - 1]);
    }
  }

  lemma {:induction false} UnviewedMembers(events: seq<EventListItem>)
    ensures forall e :: e in UnviewedEvents(events) <==> e in events && !e.userViewed
  {
    if events != [] {
      var p := events[..|events| - 1];
      UnviewedMembers(p);
      assert events == p + [events[|events| - 1]];
    }
  }

  lemma {:induction false} UnviewedAll(events: seq<EventListItem>)
    ensures UnviewedCount(events) == |events| <==> forall e :: e in events ==> !e.userViewed
  {
    if events != [] {
      var p := events[..|events| - 1];
      var last := events[|events| - 1];
      UnviewedAll(p);
      assert events == p + [last];
      if UnviewedCount(events) == |events| {
        assert UnviewedCount(p) == |p| && !last.userViewed;
      }
    }
  }

  /** The count is the number of unviewed events; it is 0 exactly when
      every event was viewed, and the length exactly when none was. */
  lemma UnviewedCountIsCount(events: seq<EventListItem>)
    ensures UnviewedCount(events) == |UnviewedEvents(events)|
    ensures forall e :: e in UnviewedEvents(events) <==> e in events && !e.userViewed
    ensures UnviewedCount(events) == 0 <==> forall e :: e in events ==> e.userViewed
    ensures UnviewedCount(events) == |events| <==> forall e :: e in events ==> !e.userViewed
  {
    UnviewedLength(events);
    UnviewedMembers(events);
    UnviewedAll(events);
    if UnviewedCount(events) != 0 {
      assert UnviewedEvents(events)[0] in UnviewedEvents(events);
    }
  }

  /** Adding a new event counts it when it is unviewed; replacing one
      trades the old event's share for the new one's. */
  lemma {:induction false} UnviewedAfterAddUpdate(events: seq<EventListItem>, e: EventListItem)
    ensures var i := FindEvent(events, e.eventId);
      UnviewedCount(AddUpdate(events, e)) ==
        UnviewedCount(events) + (if e.userViewed then 0 else 1) -
        (if i >= 0 && !events[i].userViewed then 1 else 0)
  {
    var i := FindEvent(events, e.eventId);
    if i >= 0 {
      UnviewedReplace(events, i, e);
    } else {
      UnviewedPrepend(events, e);
    }
  }

  /** The count of a list with one more event in front. */
  lemma {:induction false} UnviewedPrepend(events: seq<EventListItem>, e: EventListItem)
    ensures UnviewedCount([e] + events) == UnviewedCount(events) + (if e.userViewed then 0 else 1)
    decreases |events|
  {
    if events != [] {
      var n := |events| - 1;
      assert ([e] + events)[..n + 1] == [e] + events[..n];
      UnviewedPrepend(events[..n], e);
    }
  }

  /** The count of a list with one event replaced. */
  lemma {:induction false} UnviewedReplace(events: seq<EventListItem>, i: nat, e: EventListItem)
    requires i < |events|
    ensures UnviewedCount(events[i := e]) ==
      UnviewedCount(events) + (if e.userViewed then 0 else 1) - (if events[i].userViewed then 0 else 1)
    decreases |events|
  {
    var n := |events| - 1;
    if i < n {
      assert events[i := e][..n] == events[..n][i := e];
      UnviewedReplace(events[..n], i, e);
    } else {
      assert events[i := e][..n] == events[..n];
    }
  }

  // ---------------------------------------------------------------------
  // SAVE_EVENT_FILTER / LOAD_EVENT_FILTER

  /** A saved filter: its name and a copy of the filter of the moment,
      absent when the store had none. */
  datatype SavedFilter = SavedFilter(name: string, filter: Option<EventFilter>)

  /** `LOAD_EVENT_FILTER`: the copy at the index, or nothing (JavaScript's
      `undefined`) for an index outside the list. */
  function LoadFilter(saved: seq<SavedFilter>, index: int): (r: Option<EventFilter>)
    ensures !(0 <= index < |saved|) ==> r == None
    ensures 0 <= index < |saved| ==> r == saved[index].filter
  {
    if 0 <= index < |saved| then saved[index].filter else None
  }

  /** Saving appends and loading the new last entry gives back the filter
      that was saved; every earlier entry loads as before. */
  lemma SaveThenLoad(saved: seq<SavedFilter>, name: string, f: Option<EventFilter>, index: int)
    ensures LoadFilter(saved + [SavedFilter(name, f)], |saved|) == f
    ensures index != |saved| ==> LoadFilter(saved + [SavedFilter(name, f)], index) == LoadFilter(saved, index)
  {
  }

  // ---------------------------------------------------------------------
  // SET_EVENT_PLATFORMS

  /** A position, either earth-centred or latitude, longitude, altitude. */
  datatype Point = Point(x: real, y: real, z: real)

  /** A database row: a sensor of a platform. */
  datatype PlatformRow = PlatformRow(platformId: int, platformName: string, posEcef: Option<Point>,
                                     sensorId: int, sensorName: string, sensorType: string, fov: real)

  datatype Sensor = Sensor(id: int, name: string, sensorType: string, fov: real)

  datatype Platform = Platform(id: int, name: string, posEcef: Option<Point>, posLatLonAlt: Option<Point>,
                               sensors: seq<Sensor>)

  /** `find` on the platforms built so far: the first with the id, or -1. */
  function FindPlatform(ps: seq<Platform>, id: int): (i: int)
    ensures -1 <= i < |ps|
    ensures i >= 0 ==> ps[i].id == id && forall j :: 0 <= j < i ==> ps[j].id != id
    ensures i < 0 <==> forall j :: 0 <= j < |ps| ==> ps[j].id != id
  {
    if ps == [] then -1
    else if ps[0].id == id then 0
    else
      var k := FindPlatform(ps[1..], id);
      if k < 0 then -1 else k + 1
  }

  /** The sensor a row describes. */
  function SensorOf(row: PlatformRow): Sensor {
    Sensor(row.sensorId, row.sensorName, row.sensorType, row.fov)
  }

  /** The ids of a list of sensors. */
  function SensorIds(ss: seq<Sensor>): (r: seq<int>)
    ensures |r| == |ss| && forall k :: 0 <= k < |ss| ==> r[k] == ss[k].id
  {
    if ss == [] then [] else SensorIds(ss[..|ss| - 1]) + [ss[|ss| - 1].id]
  }

  /** The platform a row creates: its position is projected when it has
      one. */
  function NewPlatform(row: PlatformRow, unproject: Point -> Point): Platform {
    Platform(row.platformId, row.platformName, row.posEcef,
             if row.posEcef.Some? then Some(unproject(row.posEcef.value)) else None, [])
  }

  /** One row on one platform: a missing projected position is filled in
      from the row, and the row's sensor is added unless a sensor of that
      id is there already. */
  function WithRow(p: Platform, row: PlatformRow, unproject: Point -> Point): (q: Platform)
    ensures q.id == p.id && q.name == p.name && q.posEcef == p.posEcef
    ensures q.posLatLonAlt.Some? <==> p.posLatLonAlt.Some? || row.posEcef.Some?
    ensures SensorIds(q.sensors) == SensorIds(p.sensors) + (if row.sensorId in SensorIds(p.sensors) then [] else [row.sensorId])
    ensures p.sensors <= q.sensors
    ensures row.sensorId !in SensorIds(p.sensors) ==> SensorOf(row) in q.sensors
  {
    var located := if p.posLatLonAlt.None? && row.posEcef.Some? then p.(posLatLonAlt := Some(unproject(row.posEcef.value))) else p;
    if row.sensorId in SensorIds(located.sensors) then located
    else
      assert (located.sensors + [SensorOf(row)])[..|located.sensors|] == located.sensors;
      located.(sensors := located.sensors + [SensorOf(row)])
  }

  /** One loop step of `SET_EVENT_PLATFORMS`: the row goes to the platform
      with its id, created at the end when there is none. */
  function AddPlatformRow(ps: seq<Platform>, row: PlatformRow, unproject: Point -> Point): (r: seq<Platform>)
    ensures FindPlatform(ps, row.platformId) >= 0 ==> |r| == |ps|
    ensures FindPlatform(ps, row.platformId) < 0 ==> |r| == |ps| + 1 && r[|ps|].id == row.platformId
    ensures forall k :: 0 <= k < |ps| ==> r[k].id == ps[k].id
  {
    var i := FindPlatform(ps, row.platformId);
    if i >= 0 then ps[i := WithRow(ps[i], row, unproject)]
    else ps + [WithRow(NewPlatform(row, unproject), row, unproject)]
  }

  /** The platforms the rows give, row by row. */
  function PlatformsOf(rows: seq<PlatformRow>, unproject: Point -> Point): seq<Platform> {
    if rows == [] then []
    else AddPlatformRow(PlatformsOf(rows[..|rows| - 1], unproject), rows[|rows| - 1], unproject)
  }

  /** The ids of the platforms, in order. */
  function PlatformIds(ps: seq<Platform>): (r: seq<int>)
    ensures |r| == |ps| && forall k :: 0 <= k < |ps| ==> r[k] == ps[k].id
  {
    if ps == [] then [] else PlatformIds(ps[..|ps| - 1]) + [ps[|ps| - 1].id]
  }

  /** The distinct values of a list in order of first appearance. */
  function Distinct(xs: seq<int>): seq<int> {
    if xs == [] then []
    else
      var p := Distinct(xs[..|xs| - 1]);
      var x := xs[|xs| - 1];
      p + (if x in p then [] else [x])
  }

  /** The distinct values are the values of the list, each once. */
  lemma {:induction false} DistinctValues(xs: seq<int>)
    ensures forall x :: x in Distinct(xs) <==> x in xs
    ensures forall i, j :: 0 <= i < j < |Distinct(xs)| ==> Distinct(xs)[i] != Distinct(xs)[j]
  {
    if xs != [] {
      var n := |xs| - 1;
      DistinctValues(xs[..n]);
      assert xs == xs[..n] + [xs[n]];
    }
  }

  /** The platform ids of the rows, in row order. */
  function RowPlatformIds(rows: seq<PlatformRow>): seq<int> {
    if rows == [] then [] else RowPlatformIds(rows[..|rows| - 1]) + [rows[|rows| - 1].platformId]
  }

  /** The sensor ids of the rows of one platform, in row order. */
  function RowSensorIds(rows: seq<PlatformRow>, id: int): seq<int> {
    if rows == [] then []
    else
      var last := rows[|rows| - 1];
      RowSensorIds(rows[..|rows| - 1], id) + (if last.platformId == id then [last.sensorId] else [])
  }

  /** The sensor ids of the platform with the id, none when there is no
      such platform. */
  function SensorsOfPlatform(ps: seq<Platform>, id: int): seq<int> {
    var e := PlatformEntry(ps, id);
    if e.None? then [] else SensorIds(e.value.sensors)
  }

  /** The platform with the id, if any. */
  function PlatformEntry(ps: seq<Platform>, id: int): (r: Option<Platform>)
    ensures r.Some? ==> r.value in ps && r.value.id == id
    ensures r.None? <==> id !in PlatformIds(ps)
  {
    FindPlatformIds(ps, id);
    var i := FindPlatform(ps, id);
    if i < 0 then None else Some(ps[i])
  }

  /** A platform id is found in the platforms exactly when it is among
      their ids. */
  lemma FindPlatformIds(ps: seq<Platform>, id: int)
    ensures FindPlatform(ps, id) >= 0 <==> id in PlatformIds(ps)
  {
    if id in PlatformIds(ps) {
      var k :| 0 <= k < |ps| && PlatformIds(ps)[k] == id;
      assert ps[k].id == id;
    }
  }

  /** One step adds the row's platform id at the end when it is new. */
  lemma AddRowIds(ps: seq<Platform>, row: PlatformRow, unproject: Point -> Point)
    ensures PlatformIds(AddPlatformRow(ps, row, unproject)) ==
      PlatformIds(ps) + (if row.platformId in PlatformIds(ps) then [] else [row.platformId])
  {
    FindPlatformIds(ps, row.platformId);
  }

  /** The last row is the last step. */
  lemma PlatformsOfSnoc(rows: seq<PlatformRow>, unproject: Point -> Point)
    requires rows != []
    ensures PlatformsOf(rows, unproject) == AddPlatformRow(PlatformsOf(rows[..|rows| - 1], unproject), rows[|rows| - 1], unproject)
  {
  }

  /** One more value is kept when it is new. */
  lemma DistinctSnoc(xs: seq<int>, x: int)
    ensures Distinct(xs + [x]) == Distinct(xs) + (if x in Distinct(xs) then [] else [x])
  {
    assert (xs + [x])[..|xs|] == xs;
  }

  /** `SET_EVENT_PLATFORMS` gives one platform per platform id of the rows,
      in the order the ids first appear. */
  lemma {:induction false} PlatformsFirstSeen(rows: seq<PlatformRow>, unproject: Point -> Point)
    ensures PlatformIds(PlatformsOf(rows, unproject)) == Distinct(RowPlatformIds(rows))
  {
    if rows != [] {
      var n := |rows| - 1;
      var ps := PlatformsOf(rows[..n], unproject);
      PlatformsFirstSeen(rows[..n], unproject);
      PlatformsOfSnoc(rows, unproject);
      AddRowIds(ps, rows[n], unproject);
      assert RowPlatformIds(rows) == RowPlatformIds(rows[..n]) + [rows[n].platformId];
      DistinctSnoc(RowPlatformIds(rows[..n]), rows[n].platformId);
    }
  }

  /** One step adds the row's sensor id to its platform when it is new
      there, and leaves every other platform's sensors alone. */
  lemma AddRowSensors(ps: seq<Platform>, row: PlatformRow, unproject: Point -> Point, id: int)
    ensures var before := SensorsOfPlatform(ps, id);
      SensorsOfPlatform(AddPlatformRow(ps, row, unproject), id) ==
        if id == row.platformId then before + (if row.sensorId in before then [] else [row.sensorId])
        else before
  {
    var i := FindPlatform(ps, row.platformId);
    var r := AddPlatformRow(ps, row, unproject);
    var k := FindPlatform(ps, id);
    if id == row.platformId {
      if i < 0 {
        assert FindPlatform(r, id) == |ps|;
        assert SensorIds([]) == [];
      } else {
        assert FindPlatform(r, id) == i;
      }
    } else {
      assert forall j :: 0 <= j < |r| ==> (r[j].id == id <==> j < |ps| && ps[j].id == id);
      if k >= 0 {
        assert FindPlatform(r, id) == k;
        assert r[k] == ps[k];
      } else {
        assert FindPlatform(r, id) < 0;
      }
    }
  }

  /** `SET_EVENT_PLATFORMS` gives each platform the sensor ids of its rows,
      each once, in the order they first appear: a repeated sensor keeps
      its first entry. */
  lemma {:induction false} PlatformSensorsFirstSeen(rows: seq<PlatformRow>, unproject: Point -> Point, id: int)
    ensures SensorsOfPlatform(PlatformsOf(rows, unproject), id) == Distinct(RowSensorIds(rows, id))
  {
    if rows != [] {
      var n := |rows| - 1;
      var ps := PlatformsOf(rows[..n], unproject);
      PlatformSensorsFirstSeen(rows[..n], unproject, id);
      PlatformsOfSnoc(rows, unproject);
      AddRowSensors(ps, rows[n], unproject, id);
      if rows[n].platformId == id {
        assert RowSensorIds(rows, id) == RowSensorIds(rows[..n], id) + [rows[n].sensorId];
        DistinctSnoc(RowSensorIds(rows[..n], id), rows[n].sensorId);
      } else {
        assert RowSensorIds(rows, id) == RowSensorIds(rows[..n], id);
      }
    }
  }

  /** A platform id is among the rows' ids exactly when a row has it. */
  lemma {:induction false} RowPlatformIdsHas(rows: seq<PlatformRow>, id: int)
    ensures id in RowPlatformIds(rows) <==> exists j :: 0 <= j < |rows| && rows[j].platformId == id
  {
    if rows != [] {
      var n := |rows| - 1;
      RowPlatformIdsHas(rows[..n], id);
      assert forall j :: 0 <= j < n ==> rows[..n][j] == rows[j];
    }
  }

  /** A sensor id is among a platform's row sensor ids exactly when a row
      of the platform has it. */
  lemma {:induction false} RowSensorIdsHas(rows: seq<PlatformRow>, id: int, sensorId: int)
    ensures sensorId in RowSensorIds(rows, id) <==>
      exists j :: 0 <= j < |rows| && rows[j].platformId == id && rows[j].sensorId == sensorId
  {
    if rows != [] {
      var n := |rows| - 1;
      RowSensorIdsHas(rows[..n], id, sensorId);
      assert forall j :: 0 <= j < n ==> rows[..n][j] == rows[j];
    }
  }

  /** One step leaves every other platform as it was. */
  lemma AddRowOthers(ps: seq<Platform>, row: PlatformRow, unproject: Point -> Point, id: int)
    requires row.platformId != id
    ensures PlatformEntry(AddPlatformRow(ps, row, unproject), id) == PlatformEntry(ps, id)
  {
    var r := AddPlatformRow(ps, row, unproject);
    var k := FindPlatform(ps, id);
    assert forall j :: 0 <= j < |r| ==> (r[j].id == id <==> j < |ps| && ps[j].id == id);
    if k >= 0 {
      assert FindPlatform(r, id) == k;
      assert r[k] == ps[k];
    } else {
      assert FindPlatform(r, id) < 0;
    }
  }

  /** One step on a platform there already: it is the platform with the
      row applied. */
  lemma AddRowUpdates(ps: seq<Platform>, row: PlatformRow, unproject: Point -> Point)
    requires PlatformEntry(ps, row.platformId).Some?
    ensures PlatformEntry(AddPlatformRow(ps, row, unproject), row.platformId) ==
      Some(WithRow(PlatformEntry(ps, row.platformId).value, row, unproject))
  {
    var i := FindPlatform(ps, row.platformId);
    FindPlatformIds(ps, row.platformId);
    assert FindPlatform(AddPlatformRow(ps, row, unproject), row.platformId) == i;
  }

  /** One step on a new platform: it is the platform the row creates, with
      the row applied. */
  lemma AddRowCreates(ps: seq<Platform>, row: PlatformRow, unproject: Point -> Point)
    requires PlatformEntry(ps, row.platformId).None?
    ensures PlatformEntry(AddPlatformRow(ps, row, unproject), row.platformId) ==
      Some(WithRow(NewPlatform(row, unproject), row, unproject))
  {
    FindPlatformIds(ps, row.platformId);
    assert FindPlatform(AddPlatformRow(ps, row, unproject), row.platformId) == |ps|;
  }

  /** The entry the rows give one platform id, row by row: rows of other
      platforms pass it by, the first row of the platform creates it and
      every row of the platform is applied to it. */
  function EntryOf(rows: seq<PlatformRow>, unproject: Point -> Point, id: int): Option<Platform> {
    if rows == [] then None
    else
      var row, before := rows[|rows| - 1], EntryOf(rows[..|rows| - 1], unproject, id);
      if row.platformId != id then before
      else if before.Some? then Some(WithRow(before.value, row, unproject))
      else Some(WithRow(NewPlatform(row, unproject), row, unproject))
  }

  /** `SET_EVENT_PLATFORMS` builds, for every platform id, the entry the
      rows of that platform alone give it. */
  lemma {:induction false} EntryOfPlatforms(rows: seq<PlatformRow>, unproject: Point -> Point, id: int)
    ensures PlatformEntry(PlatformsOf(rows, unproject), id) == EntryOf(rows, unproject, id)
  {
    if rows != [] {
      var n := |rows| - 1;
      var ps := PlatformsOf(rows[..n], unproject);
      EntryOfPlatforms(rows[..n], unproject, id);
      PlatformsOfSnoc(rows, unproject);
      if rows[n].platformId != id {
        AddRowOthers(ps, rows[n], unproject, id);
      } else if PlatformEntry(ps, id).Some? {
        AddRowUpdates(ps, rows[n], unproject);
      } else {
        AddRowCreates(ps, rows[n], unproject);
      }
    }
  }

  /** The rows give an entry to every platform id they hold. */
  lemma {:induction false} EntryOfHas(rows: seq<PlatformRow>, unproject: Point -> Point, id: int)
    ensures EntryOf(rows, unproject, id).Some? <==> exists j :: 0 <= j < |rows| && rows[j].platformId == id
  {
    if rows != [] {
      var n := |rows| - 1;
      EntryOfHas(rows[..n], unproject, id);
      assert forall j :: 0 <= j < n ==> rows[..n][j] == rows[j];
    }
  }

  /** A row whose sensor is new on its platform. */
  ghost predicate FirstOfSensor(rows: seq<PlatformRow>, k: nat)
    requires k < |rows|
  {
    forall j :: 0 <= j < k ==> rows[j].platformId != rows[k].platformId || rows[j].sensorId != rows[k].sensorId
  }

  /** The sensor of the first row with that sensor on that platform is
      not on the platform before that row. */
  lemma SensorNewAtFirstRow(rows: seq<PlatformRow>, unproject: Point -> Point)
    requires rows != [] && FirstOfSensor(rows, |rows| - 1)
    ensures var n := |rows| - 1;
      var e := EntryOf(rows[..n], unproject, rows[n].platformId);
      e.Some? ==> rows[n].sensorId !in SensorIds(e.value.sensors)
  {
    var n := |rows| - 1;
    var row := rows[n];
    EntryOfPlatforms(rows[..n], unproject, row.platformId);
    PlatformSensorsFirstSeen(rows[..n], unproject, row.platformId);
    DistinctValues(RowSensorIds(rows[..n], row.platformId));
    RowSensorIdsHas(rows[..n], row.platformId, row.sensorId);
    assert forall j :: 0 <= j < n ==> rows[..n][j] == rows[j];
  }

  /** Later rows keep a platform's name and earth-centred position and
      the sensors it has so far. */
  lemma {:induction false} EntryKeeps(rows: seq<PlatformRow>, unproject: Point -> Point, m: nat, id: int)
    requires m <= |rows| && EntryOf(rows[..m], unproject, id).Some?
    ensures var before, after := EntryOf(rows[..m], unproject, id), EntryOf(rows, unproject, id);
      after.Some? && after.value.name == before.value.name && after.value.posEcef == before.value.posEcef &&
      before.value.sensors <= after.value.sensors
    decreases |rows|
  {
    if m < |rows| {
      var n := |rows| - 1;
      assert rows[..n][..m] == rows[..m];
      EntryKeeps(rows[..n], unproject, m, id);
    } else {
      assert rows[..m] == rows;
    }
  }

  /** The first row of a platform makes it: the platform takes that row's
      name and earth-centred position. */
  lemma FirstRowNames(rows: seq<PlatformRow>, unproject: Point -> Point, k: nat)
    requires k < |rows|
    requires forall j :: 0 <= j < k ==> rows[j].platformId != rows[k].platformId
    ensures EntryOf(rows, unproject, rows[k].platformId).Some?
    ensures EntryOf(rows, unproject, rows[k].platformId).value.name == rows[k].platformName
    ensures EntryOf(rows, unproject, rows[k].platformId).value.posEcef == rows[k].posEcef
  {
    var id := rows[k].platformId;
    assert rows[..k + 1][..k] == rows[..k];
    EntryOfHas(rows[..k], unproject, id);
    assert forall j :: 0 <= j < k ==> rows[..k][j] == rows[j];
    EntryKeeps(rows, unproject, k + 1, id);
  }

  /** The first row of a sensor on a platform gives the sensor entry the
      platform keeps: a later row with the same sensor id is dropped. */
  lemma FirstRowSensor(rows: seq<PlatformRow>, unproject: Point -> Point, k: nat)
    requires k < |rows| && FirstOfSensor(rows, k)
    ensures EntryOf(rows, unproject, rows[k].platformId).Some?
    ensures SensorOf(rows[k]) in EntryOf(rows, unproject, rows[k].platformId).value.sensors
  {
    var id := rows[k].platformId;
    var pre := rows[..k + 1];
    assert pre[..k] == rows[..k];
    assert forall j :: 0 <= j < k ==> pre[j] == rows[j];
    SensorNewAtFirstRow(pre, unproject);
    EntryKeeps(rows, unproject, k + 1, id);
  }

  /** Some row of the platform has a position. */
  ghost predicate HasPositionRow(rows: seq<PlatformRow>, id: int) {
    exists j :: 0 <= j < |rows| && rows[j].platformId == id && rows[j].posEcef.Some?
  }

  /** A position row is among the earlier rows or is the last one. */
  lemma HasPositionRowSnoc(rows: seq<PlatformRow>, id: int)
    requires rows != []
    ensures var n := |rows| - 1;
      HasPositionRow(rows, id) <==> HasPositionRow(rows[..n], id) || (rows[n].platformId == id && rows[n].posEcef.Some?)
  {
    var n := |rows| - 1;
    assert forall j :: 0 <= j < n ==> rows[..n][j] == rows[j];
    if HasPositionRow(rows, id) {
      var j :| 0 <= j < |rows| && rows[j].platformId == id && rows[j].posEcef.Some?;
      if j < n {
        assert rows[..n][j] == rows[j];
      }
    }
  }

  /** A platform is located exactly when one of its rows has a
      position. */
  lemma {:induction false} PlatformLocated(rows: seq<PlatformRow>, unproject: Point -> Point, id: int)
    requires EntryOf(rows, unproject, id).Some?
    ensures EntryOf(rows, unproject, id).value.posLatLonAlt.Some? <==> HasPositionRow(rows, id)
    decreases |rows|
  {
    var n := |rows| - 1;
    HasPositionRowSnoc(rows, id);
    if EntryOf(rows[..n], unproject, id).Some? {
      PlatformLocated(rows[..n], unproject, id);
    } else {
      EntryOfHas(rows[..n], unproject, id);
      assert !HasPositionRow(rows[..n], id);
    }
  }

  // ---------------------------------------------------------------------
  // The store

  /** The `SET_EVENT_PLATFORMS` loop: the rows grouped into platforms, row
      by row. */
  method GroupPlatforms(rows: seq<PlatformRow>, unproject: Point -> Point) returns (result: seq<Platform>)
    ensures result == PlatformsOf(rows, unproject)
  {
    result := [];
    for r := 0 to |rows|
      invariant result == PlatformsOf(rows[..r], unproject)
    {
      assert rows[..r + 1][..r] == rows[..r];
      result := AddRowInPlace(result, rows[r], unproject);
    }
    assert rows[..|rows|] == rows;
  }

  /** One pass of the `SET_EVENT_PLATFORMS` loop: find the row's platform
      or push a new one, set its position if it has none and the row has
      one, add the row's sensor if it is new, and store the platform back. */
  method AddRowInPlace(ps: seq<Platform>, row: PlatformRow, unproject: Point -> Point) returns (r: seq<Platform>)
    ensures r == AddPlatformRow(ps, row, unproject)
  {
    r := ps;
    var i := FindPlatform(r, row.platformId);
    var platform;
    if i >= 0 {
      platform := r[i];
    } else {
      platform := NewPlatform(row, unproject);
      i := |r|;
      r := r + [platform];
    }
    if platform.posLatLonAlt.None? && row.posEcef.Some? {
      platform := platform.(posLatLonAlt := Some(unproject(row.posEcef.value)));
    }
    if row.sensorId !in SensorIds(platform.sensors) {
      platform := platform.(sensors := platform.sensors + [SensorOf(row)]);
    }
    r := r[i := platform];
  }

  /** The state of the event store the model keeps: the event list, the
      selected summary, the filter and its saved copies, the platforms of
      the selected event, whether event and point-source details are
      loaded, the event history, the hovered id and the detail view. */
  /** The name an object spread as `{ name, ...current }` ends up with:
      the spread object's own name when it has one, else `name`. */
  function SpreadName(current: Option<string>, name: string): (r: string)
    ensures current.None? ==> r == name
    ensures current.Some? ==> r == current.value
  {
    if current.Some? then current.value else name
  }

  /** The name the filter loaded from the index carries: the one it was
      saved under, or none for an index outside the list. */
  function LoadedName(saved: seq<SavedFilter>, index: int): (r: Option<string>)
    ensures !(0 <= index < |saved|) ==> r == None
    ensures 0 <= index < |saved| ==> r == Some(saved[index].name)
  {
    if 0 <= index < |saved| then Some(saved[index].name) else None
  }

  /** As written, saving after a load reuses the loaded filter's name:
      SAVE("a"), LOAD(0), SAVE("b") leaves two entries both named "a". */
  method SaveAfterLoadKeepsName() returns (names: seq<string>)
    ensures names == ["a", "a"]
  {
    var store := new EventStore();
    store.SaveEventFilterAsWritten("a");
    store.LoadEventFilter(0);
    store.SaveEventFilterAsWritten("b");
    names := [store.savedFilters[0].name, store.savedFilters[1].name];
  }

  /** As intended, the same steps save the second copy as "b". */
  method SaveAfterLoadUsesNewName() returns (names: seq<string>)
    ensures names == ["a", "b"]
  {
    var store := new EventStore();
    store.SaveEventFilter("a");
    store.LoadEventFilter(0);
    store.SaveEventFilter("b");
    names := [store.savedFilters[0].name, store.savedFilters[1].name];
  }

  class EventStore {
    var events: seq<EventListItem>
    var selected: Option<EventListItem>
    var eventFilter: Option<EventFilter>
    /** The `name` the current filter object carries: a filter loaded from
        the saved list keeps the name it was saved under. */
    var filterName: Option<string>
    var savedFilters: seq<SavedFilter>
    var eventPlatforms: seq<Platform>
    var detailsLoaded: bool
    var pointSourceSelected: bool
    var history: seq<string>
    var hoveredId: string
    var detailView: bool

    /** The initial state: no events, nothing selected, the default
        filter. */
    constructor()
      ensures events == [] && selected == None && eventFilter == Some(DefaultFilter) && filterName == None
      ensures savedFilters == [] && eventPlatforms == [] && history == []
      ensures !detailsLoaded && !pointSourceSelected && hoveredId == "" && !detailView
    {
      events := [];
      selected := None;
      eventFilter := Some(DefaultFilter);
      filterName := None;
      savedFilters := [];
      eventPlatforms := [];
      detailsLoaded := false;
      pointSourceSelected := false;
      history := [];
      hoveredId := "";
      detailView := false;
    }

    /** `SET_SELECTED_EVENT`: the event with the id becomes the selected
        summary; an unknown id changes nothing. */
    method SetSelectedEvent(id: string)
      modifies this
      ensures selected == if SingleEventById(events, id).Some? then SingleEventById(events, id) else old(selected)
      ensures events == old(events) && eventFilter == old(eventFilter) && filterName == old(filterName) && savedFilters == old(savedFilters)
      ensures eventPlatforms == old(eventPlatforms) && detailsLoaded == old(detailsLoaded)
      ensures pointSourceSelected == old(pointSourceSelected) && history == old(history)
      ensures hoveredId == old(hoveredId) && detailView == old(detailView)
    {
      var eventSummary := SingleEventById(events, id);
      if eventSummary.None? {
        return;
      }
      selected := eventSummary;
    }

    /** `ADD_UPDATE_EVENT_SUMMARY`: the event is added or updated, and it
        replaces the selected summary of the same id. */
    method AddUpdateEventSummary(e: EventListItem)
      modifies this
      ensures events == AddUpdate(old(events), e)
      ensures selected == if old(selected).Some? && old(selected).value.eventId == e.eventId then Some(e) else old(selected)
      ensures eventFilter == old(eventFilter) && filterName == old(filterName) && savedFilters == old(savedFilters)
      ensures eventPlatforms == old(eventPlatforms) && detailsLoaded == old(detailsLoaded)
      ensures pointSourceSelected == old(pointSourceSelected) && history == old(history)
      ensures hoveredId == old(hoveredId) && detailView == old(detailView)
    {
      var idx := FindEvent(events, e.eventId);
      if idx >= 0 {
        events := events[idx := e];
      } else {
        events := [e] + events;
      }
      if selected.Some? && selected.value.eventId == e.eventId {
        selected := Some(e);
      }
    }

    /** `SAVE_EVENT_FILTER` as intended: a copy of the current filter is
        added at the end under the name given. */
    method SaveEventFilter(name: string)
      modifies this
      ensures savedFilters == old(savedFilters) + [SavedFilter(name, old(eventFilter))]
      ensures events == old(events) && selected == old(selected) && eventFilter == old(eventFilter) && filterName == old(filterName)
      ensures eventPlatforms == old(eventPlatforms) && detailsLoaded == old(detailsLoaded)
      ensures pointSourceSelected == old(pointSourceSelected) && history == old(history)
      ensures hoveredId == old(hoveredId) && detailView == old(detailView)
    {
      savedFilters := savedFilters + [SavedFilter(name, eventFilter)];
    }

    /** `SAVE_EVENT_FILTER` as written: `{ name, ...R.clone(state.eventFilter) }`
        spreads the filter after the name, so a filter that carries a name
        keeps it and the name given is lost. */
    method SaveEventFilterAsWritten(name: string)
      modifies this
      ensures savedFilters == old(savedFilters) + [SavedFilter(SpreadName(old(filterName), name), old(eventFilter))]
      ensures events == old(events) && selected == old(selected) && eventFilter == old(eventFilter) && filterName == old(filterName)
      ensures eventPlatforms == old(eventPlatforms) && detailsLoaded == old(detailsLoaded)
      ensures pointSourceSelected == old(pointSourceSelected) && history == old(history)
      ensures hoveredId == old(hoveredId) && detailView == old(detailView)
    {
      savedFilters := savedFilters + [SavedFilter(SpreadName(filterName, name), eventFilter)];
    }

    /** `LOAD_EVENT_FILTER`: the filter becomes the saved copy at the
        index, name included; an index outside the list leaves no filter. */
    method LoadEventFilter(index: int)
      modifies this
      ensures eventFilter == LoadFilter(old(savedFilters), index)
      ensures filterName == LoadedName(old(savedFilters), index)
      ensures events == old(events) && selected == old(selected) && savedFilters == old(savedFilters)
      ensures eventPlatforms == old(eventPlatforms) && detailsLoaded == old(detailsLoaded)
      ensures pointSourceSelected == old(pointSourceSelected) && history == old(history)
      ensures hoveredId == old(hoveredId) && detailView == old(detailView)
    {
      if 0 <= index < |savedFilters| {
        eventFilter := savedFilters[index].filter;
        filterName := Some(savedFilters[index].name);
      } else {
        eventFilter := None;
        filterName := None;
      }
    }

    /** `SET_EVENT_FILTER`: the filter passed in, which carries no name,
        becomes the current filter. */
    method SetEventFilter(filter: EventFilter)
      modifies this
      ensures eventFilter == Some(filter) && filterName == None
      ensures events == old(events) && selected == old(selected) && savedFilters == old(savedFilters)
      ensures eventPlatforms == old(eventPlatforms) && detailsLoaded == old(detailsLoaded)
      ensures pointSourceSelected == old(pointSourceSelected) && history == old(history)
      ensures hoveredId == old(hoveredId) && detailView == old(detailView)
    {
      eventFilter := Some(filter);
      filterName := None;
    }

    /** `SET_EVENT_PLATFORMS`: the rows grouped into platforms. */
    method SetEventPlatforms(rows: seq<PlatformRow>, unproject: Point -> Point)
      modifies this
      ensures eventPlatforms == PlatformsOf(rows, unproject)
      ensures events == old(events) && selected == old(selected) && eventFilter == old(eventFilter) && filterName == old(filterName)
      ensures savedFilters == old(savedFilters) && detailsLoaded == old(detailsLoaded)
      ensures pointSourceSelected == old(pointSourceSelected) && history == old(history)
      ensures hoveredId == old(hoveredId) && detailView == old(detailView)
    {
      var result := GroupPlatforms(rows, unproject);
      eventPlatforms := result;
    }

    /** The `CLEAR_SELECTED_EVENT` action: no details, no selected summary,
        no history and no platforms. */
    method ClearSelectedEvent()
      modifies this
      ensures !detailsLoaded && selected == None && history == [] && eventPlatforms == []
      ensures events == old(events) && eventFilter == old(eventFilter) && filterName == old(filterName) && savedFilters == old(savedFilters)
      ensures pointSourceSelected == old(pointSourceSelected)
      ensures hoveredId == old(hoveredId) && detailView == old(detailView)
    {
      detailsLoaded := false;
      selected := None;
      history := [];
      eventPlatforms := [];
    }

    /** The `SHOW_ALL_EVENTS` action: the selection is cleared, no point
        source, nothing hovered, and the list view. */
    method ShowAllEvents()
      modifies this
      ensures !detailsLoaded && selected == None && history == [] && eventPlatforms == []
      ensures !pointSourceSelected && hoveredId == "" && !detailView
      ensures events == old(events) && eventFilter == old(eventFilter) && filterName == old(filterName) && savedFilters == old(savedFilters)
    {
      ClearSelectedEvent();
      pointSourceSelected := false;
      hoveredId := "";
      detailView := false;
    }

    /** The `SELECT_EVENT` action: the selection is cleared, then the
        event with the id is selected. */
    method SelectEvent(id: string)
      modifies this
      ensures selected == SingleEventById(events, id)
      ensures !detailsLoaded && history == [] && eventPlatforms == []
      ensures events == old(events) && eventFilter == old(eventFilter) && filterName == old(filterName) && savedFilters == old(savedFilters)
      ensures pointSourceSelected == old(pointSourceSelected)
      ensures hoveredId == old(hoveredId) && detailView == old(detailView)
    {
      ClearSelectedEvent();
      SetSelectedEvent(id);
    }

    /** The `DELETE_EVENT` action, with the missing id guarded: the event
        is removed and the store shows all events; an unknown id changes
        nothing. */
    method DeleteEventAction(id: string)
      modifies this
      ensures events == DeleteEvent(old(events), id)
      ensures eventFilter == old(eventFilter) && filterName == old(filterName) && savedFilters == old(savedFilters)
      ensures SingleEventById(old(events), id).Some? ==>
          !detailsLoaded && selected == None && history == [] && eventPlatforms == [] &&
          !pointSourceSelected && hoveredId == "" && !detailView
      ensures SingleEventById(old(events), id).None? ==>
          selected == old(selected) && eventPlatforms == old(eventPlatforms) && detailsLoaded == old(detailsLoaded) &&
          pointSourceSelected == old(pointSourceSelected) && history == old(history) &&
          hoveredId == old(hoveredId) && detailView == old(detailView)
    {
      var idx := FindEvent(events, id);
      if idx < 0 {
        return;
      }
      events := events[..idx] + events[idx + 1..];
      ShowAllEvents();
    }

    /** `UNVIEWED_COUNT`. */
    function Unviewed(): (n: nat)
      reads this
      ensures n == |UnviewedEvents(events)|
    {
      UnviewedCountIsCount(events);
      UnviewedCount(events)
    }
  }
}
