/** The driver's route page for one date: its title label, the stop-click dialog and the summary line. */
module RouteDetail {
  import opened Text
  import opened Types
  import opened CalendarGrid
  import Constants

  /** `date.split('-')[k]`, undefined past the last piece. */
  function Piece(date: string, k: nat): Option<string> {
    var pieces := Split(date, '-');
    if k < |pieces| then Some(pieces[k]) else None
  }

  /** `parseInt` of a piece; `parseInt(undefined)` is NaN. */
  function ParsePiece(p: Option<string>): Option<int> {
    match p
    case None => None
    case Some(s) => ParseInt(s)
  }

  /** `formattedDate`: `<month>월 <day>일`, or empty for an empty date. */
  function FormattedDate(date: string): string {
    if date == "" then ""
    else NumberToString(ParsePiece(Piece(date, 1))) + "월 " + NumberToString(ParsePiece(Piece(date, 2))) + "일"
  }

  lemma EmptyDateLabel()
    ensures FormattedDate("") == ""
  {
  }

  lemma DigitsHaveNoDash(s: string)
    requires AllDigits(s)
    ensures '-' !in s
  {
    assert forall i :: 0 <= i < |s| ==> s[i] != '-';
  }

  lemma SplitDate(y: string, m: string, d: string)
    requires AllDigits(y) && AllDigits(m) && AllDigits(d)
    ensures Split(y + "-" + m + "-" + d, '-') == [y, m, d]
  {
    DigitsHaveNoDash(y);
    DigitsHaveNoDash(m);
    DigitsHaveNoDash(d);
    assert y + "-" + m + "-" + d == y + ['-'] + (m + ['-'] + d);
    SplitAtSeparator(y, m + ['-'] + d, '-');
    SplitAtSeparator(m, d, '-');
    SplitNoSeparator(d, '-');
  }

  lemma ParsePadded(n: nat)
    requires n < 100
    ensures ParseInt(Pad2(n)) == Some(n)
  {
    Pad2Digits(n);
    ParseIntDigits(Pad2(n));
  }

  lemma FormattedDateParts(y: string, m: string, d: string, mv: nat, dv: nat)
    requires AllDigits(y) && AllDigits(m) && AllDigits(d)
    requires ParseInt(m) == Some(mv) && ParseInt(d) == Some(dv)
    ensures FormattedDate(y + "-" + m + "-" + d) == NatToString(mv) + "월 " + NatToString(dv) + "일"
  {
    var date := y + "-" + m + "-" + d;
    SplitDate(y, m, d);
    assert Piece(date, 1) == Some(m) && Piece(date, 2) == Some(d);
    assert NumberToString(Some(mv)) == NatToString(mv);
    assert NumberToString(Some(dv)) == NatToString(dv);
  }

  /** A calendar date string reads back as its month and day, leading zeros dropped. */
  lemma FormattedDateOfDateString(year: nat, month: nat, day: nat)
    requires month < 12 && 1 <= day <= 31
    ensures FormattedDate(DateString(year, month, day)) == NatToString(month + 1) + "월 " + NatToString(day) + "일"
  {
    Pad2Digits(month + 1);
    Pad2Digits(day);
    ParsePadded(month + 1);
    ParsePadded(day);
    FormattedDateParts(NatToString(year), Pad2(month + 1), Pad2(day), month + 1, day);
  }

  /** Worked example: any year, 28 January reads `1월 28일`. */
  lemma FormattedDateOfHoliday(y: nat, m: nat, d: nat)
    requires m == 0 && d == 28
    ensures FormattedDate(DateString(y, m, d)) == "1월 28일"
  {
    FormattedDateOfDateString(y, m, d);
    SmallNumerals(m + 1, d);
    MonthDayLabel(NatToString(m + 1), NatToString(d));
  }

  /** Literal step of the worked example FormattedDateExample. */
  lemma SmallNumerals(a: nat, b: nat)
    requires a == 1 && b == 28
    ensures NatToString(a) == "1" && NatToString(b) == "28"
  {
    NatToStringTwoDigits(b);
    assert b / 10 == 2 && b % 10 == 8;
    assert DigitChar(1) == '1' && DigitChar(2) == '2' && DigitChar(8) == '8';
  }

  /** Literal step of the worked example FormattedDateExample. */
  lemma MonthDayLabel(a: string, b: string)
    requires a == "1" && b == "28"
    ensures a + "월 " + b + "일" == "1월 28일"
  {
  }

  /** 28 January reads `1월 28일`. */
  lemma FormattedDateExample()
    ensures FormattedDate(DateString(2025, 0, 28)) == "1월 28일"
  {
    FormattedDateOfHoliday(2025, 0, 28);
  }

  /** Fewer than three pieces give NaN for what is missing. */
  lemma MissingPieceIsNaN()
    ensures FormattedDate("2025") == "NaN월 NaN일"
  {
    SplitNoSeparator("2025", '-');
  }

  /** The dialog on the page; `marks` tells whether its own confirm callback would record the date. */
  datatype RouteModal = RouteModal(title: string, desc: string, marks: bool, hideCancel: bool)

  const LateTitle: string := "지각 안내 전송"
  const LateDesc: string := "지각할 수 있음을 학생들에게 안내하시겠습니까?"

  /** `handleStopClick`: the destination does nothing; any other stop asks to send a late notice. */
  function StopClick(active: Option<RouteModal>, name: string): Option<RouteModal> {
    if name == "대치학원" then active else Some(RouteModal(LateTitle, LateDesc, true, false))
  }

  lemma StopClickGuard(active: Option<RouteModal>, name: string)
    ensures name == Constants.Info.destination ==> StopClick(active, name) == active
    ensures name != Constants.Info.destination ==>
      StopClick(active, name).Some? && StopClick(active, name).value.title == LateTitle
      && !StopClick(active, name).value.hideCancel
  {
  }

  /**
   * The Modal's confirm and cancel are both wired to closing it; the stored
   * callback is passed nowhere, so the event list is left as it was.
   */
  function ModalConfirm(active: Option<RouteModal>, events: seq<string>): (Option<RouteModal>, seq<string>) {
    (None, events)
  }

  /** Clicking a stop and confirming closes the dialog and records nothing. */
  lemma LateNoticeNeverMarks(active: Option<RouteModal>, name: string, events: seq<string>)
    ensures ModalConfirm(StopClick(active, name), events) == (None, events)
    ensures name != Constants.Info.destination ==> StopClick(active, name).value.marks
  {
  }

  /** `SHUTTLE_STOPS.find(s => s.id === id)?.name`, `undefined` when no stop has the id. */
  function StopNameById(id: int): string {
    if exists i :: 0 <= i < |Constants.Stops| && Constants.Stops[i].id == id then Constants.Stops[id - 1].name
    else "undefined"
  }

  const NormalSummary: string := "현재까지 모든 인원이 정상 탑승 예정입니다."

  function Summary(hasAbsence: bool, targetStopId: int): string {
    if hasAbsence then "주의: " + StopNameById(targetStopId) + " 정류장에 미탑승 인원이 확인되었습니다."
    else NormalSummary
  }

  /** The all-normal line shows iff there is no absence. */
  lemma SummaryIff(hasAbsence: bool, targetStopId: int)
    ensures Summary(hasAbsence, targetStopId) == NormalSummary <==> !hasAbsence
  {
    if hasAbsence {
      var s := Summary(hasAbsence, targetStopId);
      assert s[0] != NormalSummary[0];
    }
  }
}
