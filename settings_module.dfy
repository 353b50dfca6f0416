/** The viewer's settings store: the per-sensor lists of colours, point
    shapes and line flags, with their push, replace-by-id and reset
    mutations and the getters that look a sensor up by id. */
module SettingsModule {
  import opened Wrappers

  /** A list entry: a sensor id and its setting. */
  datatype Entry<V> = Entry(id: int, value: V)

  /** A colour, its channels as fractions. */
  datatype Color = Color(red: real, green: real, blue: real, alpha: real)

  datatype PointShape = Circle | Square | Diamond | Triangle | DownTriangle | LeftTriangle | RightTriangle
                      | Plus | Times | VerticalLine | HorizontalLine

  /** No entry before index `k` has the id. */
  ghost predicate NoneBefore<V>(s: seq<Entry<V>>, k: int, id: int)
    requires 0 <= k <= |s|
  {
    forall j :: 0 <= j < k ==> s[j].id != id
  }

  /** `find` on a list: the index of the first entry with the id, or
      -1. */
  function FindEntry<V>(s: seq<Entry<V>>, id: int): (i: int)
    ensures -1 <= i < |s|
    ensures i >= 0 ==> s[i].id == id && NoneBefore(s, i, id)
    ensures i < 0 <==> forall k :: 0 <= k < |s| ==> s[k].id != id
  {
    if s == [] then -1
    else if s[0].id == id then 0
    else
      var k := FindEntry(s[1..], id);
      if k < 0 then -1 else k + 1
  }

  /** The getters: the setting of the first entry with the id, or nothing
      (`undefined`). */
  function FindValue<V>(s: seq<Entry<V>>, id: int): (r: Option<V>)
    ensures r.None? <==> forall k :: 0 <= k < |s| ==> s[k].id != id
    ensures r.Some? ==> exists k :: 0 <= k < |s| && s[k] == Entry(id, r.value) && NoneBefore(s, k, id)
  {
    var i := FindEntry(s, id);
    if i < 0 then None else Some(s[i].value)
  }

  /** `PUSH_SENSOR_*`: an entry pushed after one with the same id is never
      what the getter finds; a new id finds the pushed setting. */
  lemma {:induction false} FindAfterPush<V>(s: seq<Entry<V>>, e: Entry<V>, id: int)
    ensures FindValue(s + [e], id) ==
      if FindValue(s, id).Some? then FindValue(s, id) else if e.id == id then Some(e.value) else None
  {
    if s != [] {
      assert (s + [e])[1..] == s[1..] + [e];
      FindAfterPush(s[1..], e, id);
    } else {
      assert FindEntry([e], id) == if e.id == id then 0 else -1;
    }
  }

  /** `SET_SENSOR_*`: every entry with the payload's id becomes the
      payload; the others stay. */
  function ReplaceById<V>(s: seq<Entry<V>>, e: Entry<V>): (r: seq<Entry<V>>)
    ensures |r| == |s|
    ensures forall k :: 0 <= k < |s| ==> r[k].id == s[k].id
    ensures forall k :: 0 <= k < |s| && s[k].id != e.id ==> r[k] == s[k]
    ensures forall k :: 0 <= k < |s| && s[k].id == e.id ==> r[k] == e
  {
    seq(|s|, k requires 0 <= k < |s| => if s[k].id == e.id then e else s[k])
  }

  /** After a replacement the payload's id finds the payload, if the list
      had that id, and every other id finds what it found before. */
  lemma {:induction false} FindAfterReplace<V>(s: seq<Entry<V>>, e: Entry<V>, id: int)
    ensures FindValue(ReplaceById(s, e), id) ==
      if id != e.id then FindValue(s, id) else if FindValue(s, id).Some? then Some(e.value) else None
  {
    if s != [] {
      assert ReplaceById(s, e)[1..] == ReplaceById(s[1..], e);
      FindAfterReplace(s[1..], e, id);
    }
  }

  /** Replacing twice with the same payload is replacing once. */
  lemma ReplaceIdempotent<V>(s: seq<Entry<V>>, e: Entry<V>)
    ensures ReplaceById(ReplaceById(s, e), e) == ReplaceById(s, e)
  {
  }

  /** `RESET_SENSOR_LINE`: every line flag is on and every id kept. */
  function ResetLines(s: seq<Entry<bool>>): (r: seq<Entry<bool>>)
    ensures |r| == |s|
    ensures forall k :: 0 <= k < |s| ==> r[k].id == s[k].id
    ensures forall k :: 0 <= k < |r| ==> r[k].value
  {
    seq(|s|, k requires 0 <= k < |s| => Entry(s[k].id, true))
  }

  /** After the reset every sensor with a line entry finds `true`, and a
      sensor without one still finds nothing. */
  lemma {:induction false} FindAfterReset(s: seq<Entry<bool>>, id: int)
    ensures FindValue(ResetLines(s), id) == if FindValue(s, id).Some? then Some(true) else None
  {
    if s != [] {
      assert ResetLines(s)[1..] == ResetLines(s[1..]);
      FindAfterReset(s[1..], id);
    }
  }

  /** Resetting twice is resetting once. */
  lemma ResetIdempotent(s: seq<Entry<bool>>)
    ensures ResetLines(ResetLines(s)) == ResetLines(s)
  {
  }

  /** The sensor lists of the settings store. */
  class SettingsStore {
    var sensorColorList: seq<Entry<Color>>
    var sensorPointShapeList: seq<Entry<PointShape>>
    var sensorLineList: seq<Entry<bool>>

    /** The default state: every list is empty. */
    constructor()
      ensures sensorColorList == [] && sensorPointShapeList == [] && sensorLineList == []
    {
      sensorColorList := [];
      sensorPointShapeList := [];
      sensorLineList := [];
    }

    /** `PUSH_SENSOR_COLOR_LIST`. */
    method PushSensorColor(payload: Entry<Color>)
      modifies this
      ensures sensorColorList == old(sensorColorList) + [payload]
      ensures sensorPointShapeList == old(sensorPointShapeList) && sensorLineList == old(sensorLineList)
    {
      sensorColorList := sensorColorList + [payload];
    }

    /** `SET_SENSOR_COLOR`. */
    method SetSensorColor(payload: Entry<Color>)
      modifies this
      ensures sensorColorList == ReplaceById(old(sensorColorList), payload)
      ensures sensorPointShapeList == old(sensorPointShapeList) && sensorLineList == old(sensorLineList)
    {
      sensorColorList := ReplaceById(sensorColorList, payload);
    }

    /** `PUSH_SENSOR_POINT_SHAPE_LIST`. */
    method PushSensorPointShape(payload: Entry<PointShape>)
      modifies this
      ensures sensorPointShapeList == old(sensorPointShapeList) + [payload]
      ensures sensorColorList == old(sensorColorList) && sensorLineList == old(sensorLineList)
    {
      sensorPointShapeList := sensorPointShapeList + [payload];
    }

    /** `SET_SENSOR_POINT_SHAPE`. */
    method SetSensorPointShape(payload: Entry<PointShape>)
      modifies this
      ensures sensorPointShapeList == ReplaceById(old(sensorPointShapeList), payload)
      ensures sensorColorList == old(sensorColorList) && sensorLineList == old(sensorLineList)
    {
      sensorPointShapeList := ReplaceById(sensorPointShapeList, payload);
    }

    /** `PUSH_SENSOR_LINE_LIST`. */
    method PushSensorLine(payload: Entry<bool>)
      modifies this
      ensures sensorLineList == old(sensorLineList) + [payload]
      ensures sensorColorList == old(sensorColorList) && sensorPointShapeList == old(sensorPointShapeList)
    {
      sensorLineList := sensorLineList + [payload];
    }

    /** `SET_SENSOR_LINE`. */
    method SetSensorLine(payload: Entry<bool>)
      modifies this
      ensures sensorLineList == ReplaceById(old(sensorLineList), payload)
      ensures sensorColorList == old(sensorColorList) && sensorPointShapeList == old(sensorPointShapeList)
    {
      sensorLineList := ReplaceById(sensorLineList, payload);
    }

    /** `RESET_SENSOR_LINE`. */
    method ResetSensorLine()
      modifies this
      ensures sensorLineList == ResetLines(old(sensorLineList))
      ensures sensorColorList == old(sensorColorList) && sensorPointShapeList == old(sensorPointShapeList)
    {
      sensorLineList := ResetLines(sensorLineList);
    }
  }
}
