/** The rider's month calendar: boarding days (Mon, Wed, Thu), holidays, absences, and the click guard. */
module MiniCalendar {
  import opened Text
  import opened CalendarGrid
  import Constants

  /** Weekdays the shuttle runs: Monday, Wednesday, Thursday. */
  const BoardingSchedule: seq<nat> := [1, 3, 4]

  const PastMessage: string := "이전 날짜에는 설정할 수 없습니다."
  const HolidayMessage: string := "해당 날짜는 셔틀 미운행일입니다."

  /** What a day button knows about its date. */
  datatype Cell = Cell(dateStr: string, isForcedHoliday: bool, isScheduled: bool, isAbsent: bool, isPast: bool)

  /** The cell of `day` drawn at grid index `idx`, in the month of today (`todayDay` its day). */
  function DayCell(year: nat, month: nat, day: nat, idx: nat, todayDay: nat, absentDates: seq<string>): Cell {
    var dateStr := DateString(year, month, day);
    var isForcedHoliday := dateStr in Constants.NonOperationDates;
    Cell(
      dateStr := dateStr,
      isForcedHoliday := isForcedHoliday,
      isScheduled := Weekday(idx) in BoardingSchedule && !isForcedHoliday,
      isAbsent := dateStr in absentDates,
      isPast := day < todayDay)
  }

  /** The outcome of a click: nothing, an error dialog, or the date handed to `onDateSelect`. */
  datatype ClickResult = Ignored | Refused(message: string) | Selected(date: string)

  /** `handleDateClick`: the past check comes before the holiday check. */
  function HandleDateClick(dateStr: string, isPast: bool, isForcedHoliday: bool): ClickResult {
    if isPast then Refused(PastMessage)
    else if isForcedHoliday then Refused(HolidayMessage)
    else Selected(dateStr)
  }

  /** `isScheduled && handleDateClick(...)`: unscheduled cells ignore clicks. */
  function CellClick(c: Cell): ClickResult {
    if c.isScheduled then HandleDateClick(c.dateStr, c.isPast, c.isForcedHoliday) else Ignored
  }

  /** A cell is a boarding day iff its column is Mon, Wed or Thu and its date is not a non-operation day. */
  lemma ScheduledIff(year: nat, month: nat, day: nat, idx: nat, todayDay: nat, absentDates: seq<string>)
    ensures var c := DayCell(year, month, day, idx, todayDay, absentDates);
      (c.isScheduled <==> (idx % 7 == 1 || idx % 7 == 3 || idx % 7 == 4)
                          && DateString(year, month, day) !in Constants.NonOperationDates)
      && (c.isForcedHoliday ==> !c.isScheduled)
      && (c.isAbsent <==> DateString(year, month, day) in absentDates)
      && (c.isPast <==> day < todayDay)
  {
  }

  /** A date that is both past and a holiday gets the past message. */
  lemma PastCheckedFirst(dateStr: string, isForcedHoliday: bool)
    ensures HandleDateClick(dateStr, true, isForcedHoliday) == Refused(PastMessage)
    ensures HandleDateClick(dateStr, false, isForcedHoliday) ==
      (if isForcedHoliday then Refused(HolidayMessage) else Selected(dateStr))
  {
  }

  /**
   * From the grid, a click is ignored off schedule, refused as past before
   * today, and otherwise selects the cell's date; the holiday dialog never shows.
   */
  lemma GridClickOutcome(year: nat, month: nat, day: nat, idx: nat, todayDay: nat, absentDates: seq<string>)
    ensures var c := DayCell(year, month, day, idx, todayDay, absentDates);
      var r := CellClick(c);
      (r == Ignored <==> !c.isScheduled)
      && (r == Refused(PastMessage) <==> c.isScheduled && day < todayDay)
      && (r == Selected(DateString(year, month, day)) <==> c.isScheduled && day >= todayDay)
      && r != Refused(HolidayMessage)
  {
    assert PastMessage != HolidayMessage;
  }

  /** Worked example: the date string of 28 January 2025. */
  lemma DateStringOfHoliday(y: nat, m: nat, d: nat)
    requires y == 2025 && m == 0 && d == 28
    ensures DateString(y, m, d) == "2025-01-28"
  {
    YearNumeral(y);
    PaddedNumerals(m + 1, d);
    DateLiteral(NatToString(y), Pad2(m + 1), Pad2(d));
  }

  /** Literal step of the worked example NonOperationDayExample. */
  lemma YearNumeral(y: nat)
    requires y == 2025
    ensures NatToString(y) == "2025"
  {
    assert DigitChar(2) == '2' && DigitChar(0) == '0' && DigitChar(5) == '5';
    assert NatToString(2) == "2";
    assert NatToString(20) == NatToString(2) + [DigitChar(0)];
    assert NatToString(202) == NatToString(20) + [DigitChar(2)];
    assert NatToString(2025) == NatToString(202) + [DigitChar(5)];
  }

  /** Literal step of the worked example NonOperationDayExample. */
  lemma PaddedNumerals(a: nat, b: nat)
    requires a == 1 && b == 28
    ensures Pad2(a) == "01" && Pad2(b) == "28"
  {
    PaddedNumeral(a, '0', '1');
    PaddedNumeral(b, '2', '8');
  }

  /** `Pad2(n)` given its two digit characters. */
  lemma PaddedNumeral(n: nat, hi: char, lo: char)
    requires n < 100 && hi == DigitChar(n / 10) && lo == DigitChar(n % 10)
    ensures Pad2(n) == [hi, lo]
  {
    Pad2TwoDigits(n);
  }

  /** Literal step of the worked example NonOperationDayExample. */
  lemma DateLiteral(y: string, m: string, d: string)
    requires y == "2025" && m == "01" && d == "28"
    ensures y + "-" + m + "-" + d == "2025-01-28"
  {
  }

  /** The listed holiday 28 January 2025 is a non-operation cell, so never a boarding day, whatever its column. */
  lemma NonOperationDayExample(idx: nat, todayDay: nat, absentDates: seq<string>)
    ensures DayCell(2025, 0, 28, idx, todayDay, absentDates).isForcedHoliday
    ensures CellClick(DayCell(2025, 0, 28, idx, todayDay, absentDates)) == Ignored
  {
    DateStringOfHoliday(2025, 0, 28);
    assert Constants.NonOperationDates[1] == "2025-01-28";
  }
}
