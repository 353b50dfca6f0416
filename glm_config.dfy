/** The trigger generator's configuration constants and the table of GOES
    satellites with the times their data is published. */
module GlmConfig {
  import opened Wrappers

  /** One satellite of the table: its number and the publication interval as
      "YYYYMMDDhhmmss" strings; operational satellites have no end. */
  datatype SatInfo = SatInfo(name: string, id: int, startString: string, endString: Option<string>)

  const SatInfoTable: seq<SatInfo> := [
    SatInfo("GOES-16", 16, "20180213161000", Some("20250407200340")),
    SatInfo("GOES-17", 17, "20181002162420", Some("20230110182009")),
    SatInfo("GOES-18", 18, "20221104212440", None),
    SatInfo("GOES-19", 19, "20250115135500", None)
  ]

  /** The satellite numbers, in table order. */
  function SatIdNums(): (ids: seq<int>)
    ensures |ids| == |SatInfoTable|
    ensures forall k :: 0 <= k < |ids| ==> ids[k] == SatInfoTable[k].id
  {
    seq(|SatInfoTable|, k requires 0 <= k < |SatInfoTable| => SatInfoTable[k].id)
  }

  lemma SatIdNumsValue()
    ensures SatIdNums() == [16, 17, 18, 19]
  {
  }

  const ClusterTimeS: real := 2.0
  const ClusterDistanceM: real := 25000.0
  const ClusterDurationLimitS: real := 10.0
  const MinEnergyLvlJ: real := 0.000000000000005
  const ValidRank: int := 30
  const MaxNumTriggers: int := 20
  const StrongSignalRankThreshold: int := 175
  const TriggerProbThreshold: real := 0.44
  const ProcessIntervalS: real := 20.0
  const ProcessTimeSizeS: real := 20.0
}
