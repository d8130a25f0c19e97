/** The driver's month calendar: non-operation styling, today's frame, red dots, and date selection. */
module MonthlyCalendar {
  import opened Text
  import opened CalendarGrid
  import Constants

  datatype MonthCell = MonthCell(dateStr: string, isNonOp: bool, isToday: bool, hasEvent: bool)

  /** The cell of `day`; `eventHistory` is the list of dates with an absence event, taken as given. */
  function MonthCellFor(year: nat, month: nat, day: nat, todayDay: nat, eventHistory: seq<string>): MonthCell {
    var dateStr := DateString(year, month, day);
    MonthCell(
      dateStr := dateStr,
      isNonOp := dateStr in Constants.NonOperationDates,
      isToday := day == todayDay,
      hasEvent := dateStr in eventHistory)
  }

  predicate RedDot(c: MonthCell) {
    !c.isToday && c.hasEvent
  }

  /** The date a click hands to `onDateSelect`: every cell has one, non-operation days included. */
  function Click(c: MonthCell): string {
    c.dateStr
  }

  /** A red dot shows iff the day is not today's and its date has an event; non-operation styling iff listed. */
  lemma CellRules(year: nat, month: nat, day: nat, todayDay: nat, eventHistory: seq<string>)
    ensures var c := MonthCellFor(year, month, day, todayDay, eventHistory);
      (RedDot(c) <==> day != todayDay && DateString(year, month, day) in eventHistory)
      && (c.isNonOp <==> DateString(year, month, day) in Constants.NonOperationDates)
      && (c.isToday ==> !RedDot(c))
  {
  }

  /** `isToday` looks at the day of the month only, not at the year or the month. */
  lemma TodayByDayOnly(y1: nat, m1: nat, y2: nat, m2: nat, day: nat, todayDay: nat, h: seq<string>)
    ensures MonthCellFor(y1, m1, day, todayDay, h).isToday == MonthCellFor(y2, m2, day, todayDay, h).isToday
  {
  }

  /** Every click, on any day of the month, selects that day's zero-padded `YYYY-MM-DD` string. */
  lemma ClickSelectsDate(year: nat, month: nat, day: nat, todayDay: nat, eventHistory: seq<string>)
    requires 1000 <= year <= 9999 && month < 12 && 1 <= day <= 31
    ensures var s := Click(MonthCellFor(year, month, day, todayDay, eventHistory));
      s == DateString(year, month, day) && |s| == 10 && s[4] == '-' && s[7] == '-'
      && AllDigits(s[8..]) && DecimalValue(s[8..]) == day
  {
    DateStringShape(year, month, day);
  }
}
