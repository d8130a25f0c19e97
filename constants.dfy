/** The static route data of the one shuttle course the app serves. */
module Constants {
  import opened Types
  import opened Text

  const Stops: seq<ShuttleStop> := [
    ShuttleStop(1, "이매촌", 0, false, false),
    ShuttleStop(2, "아름마을", 30, true, false),
    ShuttleStop(3, "탑마을", 60, false, false),
    ShuttleStop(4, "봇들마을", 90, false, false),
    ShuttleStop(5, "대치학원", 150, false, true)
  ]

  datatype ShuttleInfo = ShuttleInfo(
    name: string, driverName: string, driverPhone: string, carNumber: string, destination: string)

  const Info: ShuttleInfo :=
    ShuttleInfo("분당 1코스", "김기사", "010-1234-5678", "000가 0000", "대치학원")

  const InitialNotices: seq<Notice> := [
    Notice(1, "<셔틀버스 휴무 안내>",
      "기사님 개인사정으로 1월 28일 미운행합니다. 이용에 착오 없으시길 바랍니다.", "2025-01-20")
  ]

  /** Days the shuttle does not run. */
  const NonOperationDates: seq<string> := ["2024-01-28", "2025-01-28"]

  /** The calendar's copy of the non-operation days. */
  const Holidays: seq<string> := NonOperationDates

  /** Five stops, offsets 0, 30, 60, 90, 150 strictly increasing, ids 1..5 in order. */
  lemma StopsShape()
    ensures |Stops| == 5
    ensures forall i :: 0 <= i < |Stops| ==> Stops[i].id == i + 1
    ensures [Stops[0].timeOffset, Stops[1].timeOffset, Stops[2].timeOffset,
             Stops[3].timeOffset, Stops[4].timeOffset] == [0, 30, 60, 90, 150]
    ensures forall i, j :: 0 <= i < j < |Stops| ==> Stops[i].timeOffset < Stops[j].timeOffset
  {
  }

  /** Exactly one boarding stop (id 2, offset 30) and exactly one destination, the last stop. */
  lemma BoardingAndDestination()
    ensures forall i :: 0 <= i < |Stops| ==> (Stops[i].isBoarding <==> i == 1)
    ensures Stops[1].id == 2 && Stops[1].timeOffset == 30
    ensures forall i :: 0 <= i < |Stops| ==> (Stops[i].isDestination <==> i == |Stops| - 1)
    ensures Stops[4].id == 5 && Stops[4].timeOffset == 150 && Stops[4].name == Info.destination
  {
  }

  /** Two zero-padded `YYYY-MM-DD` strings; the holiday list equals them. */
  lemma NonOperationDatesShape()
    ensures |NonOperationDates| == 2 && Holidays == NonOperationDates
    ensures forall k :: 0 <= k < |NonOperationDates| ==>
      |NonOperationDates[k]| == 10 && NonOperationDates[k][4] == '-' && NonOperationDates[k][7] == '-'
    ensures forall k, i :: 0 <= k < |NonOperationDates| && 0 <= i < 10 && i != 4 && i != 7 ==>
      IsDigit(NonOperationDates[k][i])
  {
  }
}
