/** The month grid both calendars draw, and the date strings of its cells. */
module CalendarGrid {
  import opened Text

  /** Blanks before the first weekday of the month, then the days 1..n. */
  function Grid(firstDay: nat, daysInMonth: nat): (g: seq<Option<nat>>)
    ensures |g| == firstDay + daysInMonth
    ensures forall i :: 0 <= i < firstDay ==> g[i] == None
    ensures forall i :: firstDay <= i < |g| ==> g[i] == Some(i - firstDay + 1)
  {
    seq(firstDay, _ => None) + seq(daysInMonth, d requires 0 <= d => Some(d + 1))
  }

  /** The two push loops that fill `days`. */
  method BuildDays(firstDay: nat, daysInMonth: nat) returns (days: seq<Option<nat>>)
    ensures days == Grid(firstDay, daysInMonth)
  {
    days := [];
    var i := 0;
    while i < firstDay
      invariant 0 <= i <= firstDay
      invariant days == seq(i, _ => None)
    {
      days := days + [None];
      i := i + 1;
    }
    i := 1;
    while i <= daysInMonth
      invariant 1 <= i <= daysInMonth + 1
      invariant |days| == firstDay + i - 1
      invariant forall k :: 0 <= k < firstDay ==> days[k] == None
      invariant forall k :: firstDay <= k < |days| ==> days[k] == Some(k - firstDay + 1)
    {
      days := days + [Some(i)];
      i := i + 1;
    }
  }

  /** Every day of the month appears once, at index `firstDay + d - 1`, on weekday `(firstDay + d - 1) % 7`. */
  lemma DayPlacement(firstDay: nat, daysInMonth: nat, d: nat)
    requires 1 <= d <= daysInMonth
    ensures var g := Grid(firstDay, daysInMonth);
      g[firstDay + d - 1] == Some(d)
      && (forall i :: 0 <= i < |g| && g[i] == Some(d) ==> i == firstDay + d - 1)
      && Weekday(firstDay + d - 1) == (firstDay + d - 1) % 7
  {
  }

  /** The weekday of grid cell `idx` (0 = Sunday): its column. */
  function Weekday(idx: nat): (w: nat)
    ensures w < 7
  {
    idx % 7
  }

  /** Day 1 falls in the column of `firstDay`, and each next day in the next column, wrapping Saturday to Sunday. */
  lemma WeekdayOfDays(firstDay: nat, d: nat)
    requires firstDay < 7 && 1 <= d
    ensures Weekday(firstDay + 1 - 1) == firstDay
    ensures Weekday(firstDay + d) == (Weekday(firstDay + d - 1) + 1) % 7
  {
    var a := firstDay + d - 1;
    var q, r := a / 7, a % 7;
    assert a == 7 * q + r;
    if r < 6 {
      ModOfSplit(a + 1, q, r + 1);
    } else {
      ModOfSplit(a + 1, q + 1, 0);
    }
    ModOfSplit(firstDay, 0, firstDay);
  }

  /** The remainder of `7 * q + r`, for `r` in range, is `r`. */
  lemma ModOfSplit(x: int, q: int, r: int)
    requires x == 7 * q + r && 0 <= r < 7
    ensures x % 7 == r
  {
  }

  /** `${year}-${MM}-${DD}`: the month (0-based) is shown 1-based, month and day zero-padded. */
  function DateString(year: nat, month: nat, day: nat): string {
    NatToString(year) + "-" + Pad2(month + 1) + "-" + Pad2(day)
  }

  /** For a four-digit year, the ISO 8601 extended calendar date `YYYY-MM-DD`, fields readable back. */
  lemma DateStringShape(year: nat, month: nat, day: nat)
    requires 1000 <= year <= 9999 && month < 12 && 1 <= day <= 31
    ensures var s := DateString(year, month, day);
      |s| == 10 && s[4] == '-' && s[7] == '-'
      && AllDigits(s[..4]) && AllDigits(s[5..7]) && AllDigits(s[8..])
      && DecimalValue(s[..4]) == year && DecimalValue(s[5..7]) == month + 1 && DecimalValue(s[8..]) == day
  {
    YearDigits(year);
    Pad2Digits(month + 1);
    Pad2Digits(day);
    DecimalValueOfNatToString(year);
    DateParts(NatToString(year), Pad2(month + 1), Pad2(day));
  }

  lemma DateParts(y: string, m: string, d: string)
    requires |y| == 4 && |m| == 2 && |d| == 2
    ensures var s := y + "-" + m + "-" + d;
      |s| == 10 && s[4] == '-' && s[7] == '-' && s[..4] == y && s[5..7] == m && s[8..] == d
  {
  }

  lemma YearDigits(year: nat)
    requires 1000 <= year <= 9999
    ensures |NatToString(year)| == 4
  {
    var s := NatToString(year);
    DecimalValueOfNatToString(year);
    if |s| < 4 {
      DecimalValueUpper(s);
      Power10Monotone(|s|, 3);
      Power10Values();
      assert false;
    }
    if |s| > 4 {
      DecimalValueLower(s);
      Power10Monotone(4, |s| - 1);
      Power10Values();
      assert false;
    }
  }

  lemma {:induction false} DecimalValueUpper(s: string)
    requires AllDigits(s)
    ensures DecimalValue(s) < Power10(|s|)
    decreases |s|
  {
    if s != [] {
      DecimalValueUpper(s[..|s| - 1]);
    }
  }

  lemma {:induction false} DecimalValueLower(s: string)
    requires AllDigits(s) && |s| >= 1 && s[0] != '0'
    ensures DecimalValue(s) >= Power10(|s| - 1)
    decreases |s|
  {
    if |s| > 1 {
      var p := s[..|s| - 1];
      assert p[0] == s[0];
      DecimalValueLower(p);
    } else {
      DecimalValueBound(s);
      assert DigitValue(s[0]) != 0;
    }
  }

  function Power10(k: nat): (p: nat)
    ensures p >= 1
  {
    if k == 0 then 1 else 10 * Power10(k - 1)
  }

  lemma Power10Values()
    ensures Power10(3) == 1000 && Power10(4) == 10000
  {
    assert Power10(4) == 10 * Power10(3);
  }

  lemma {:induction false} Power10Monotone(a: nat, b: nat)
    requires a <= b
    ensures Power10(a) <= Power10(b)
    decreases b
  {
    if a < b {
      Power10Monotone(a, b - 1);
    }
  }

  /** Distinct cells of the same month have distinct date strings. */
  lemma DateStringInjective(year: nat, month: nat, d1: nat, d2: nat)
    requires 1000 <= year <= 9999 && month < 12 && 1 <= d1 <= 31 && 1 <= d2 <= 31
    requires DateString(year, month, d1) == DateString(year, month, d2)
    ensures d1 == d2
  {
    DateStringShape(year, month, d1);
    DateStringShape(year, month, d2);
  }
}
