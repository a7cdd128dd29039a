/** skyDescription: the label shown for a sky-state code. The code is the SKY
    field of a snapshot, which is undefined when no SKY item arrived. */
module Sky {
  import opened Wrappers

  const ClearLabel: string := "☀ 맑음"
  const MostlyCloudyLabel: string := "⛅ 구름 많음"
  const OvercastLabel: string := "☁ 흐림"
  const NoDataLabel: string := "정보 없음"

  /** The switch over the code, with its default branch. */
  function SkyDescription(code: Option<string>): (text: string)
    ensures text == ClearLabel <==> code == Some("1")
    ensures text == MostlyCloudyLabel <==> code == Some("3")
    ensures text == OvercastLabel <==> code == Some("4")
    ensures text == NoDataLabel <==> code !in {Some("1"), Some("3"), Some("4")}
  {
    match code
    case Some("1") => ClearLabel
    case Some("3") => MostlyCloudyLabel
    case Some("4") => OvercastLabel
    case _ => NoDataLabel
  }
}
