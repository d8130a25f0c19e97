/** Formatting helpers: clock time, phone digits and weekday names. */
module Helpers {
  import opened Text

  /**
   * `formatHHMMSS` on the hour, minute and second a `Date` reports:
   * each field as two zero-padded digits, separated by colons.
   */
  function FormatHHMMSS(h: nat, m: nat, s: nat): string {
    Pad2(h) + ":" + Pad2(m) + ":" + Pad2(s)
  }

  lemma FormatHHMMSSShape(h: nat, m: nat, s: nat)
    requires h < 24 && m < 60 && s < 60
    ensures FormatHHMMSS(h, m, s) ==
      [DigitChar(h / 10), DigitChar(h % 10), ':', DigitChar(m / 10), DigitChar(m % 10), ':',
       DigitChar(s / 10), DigitChar(s % 10)]
  {
    Pad2TwoDigits(h);
    Pad2TwoDigits(m);
    Pad2TwoDigits(s);
    ThreeFields(Pad2(h), Pad2(m), Pad2(s));
  }

  lemma ThreeFields(a: string, b: string, c: string)
    requires |a| == 2 && |b| == 2 && |c| == 2
    ensures a + ":" + b + ":" + c == [a[0], a[1], ':', b[0], b[1], ':', c[0], c[1]]
  {
  }

  /** `val.replace(/[^0-9]/g, '')`: the ASCII digits of `val`, in order. */
  function ParseDigits(val: string): (r: string)
    ensures AllDigits(r) && |r| <= |val|
    decreases |val|
  {
    if val == [] then ""
    else if IsDigit(val[0]) then [val[0]] + ParseDigits(val[1..])
    else ParseDigits(val[1..])
  }

  lemma {:induction false} ParseDigitsConcat(a: string, b: string)
    ensures ParseDigits(a + b) == ParseDigits(a) + ParseDigits(b)
    decreases |a|
  {
    if a != [] {
      assert (a + b)[0] == a[0];
      assert (a + b)[1..] == a[1..] + b;
      ParseDigitsConcat(a[1..], b);
      if IsDigit(a[0]) {
        assert ParseDigits(a + b) == [a[0]] + (ParseDigits(a[1..]) + ParseDigits(b));
        assert ParseDigits(a) == [a[0]] + ParseDigits(a[1..]);
      }
    } else {
      assert a + b == b;
    }
  }

  /** A string that is all digits is left as it is. */
  lemma {:induction false} ParseDigitsOfDigits(d: string)
    requires AllDigits(d)
    ensures ParseDigits(d) == d
    decreases |d|
  {
    if d != [] {
      ParseDigitsOfDigits(d[1..]);
    }
  }

  /** Keeps every digit (as many of each as there were) and nothing else. */
  lemma {:induction false} ParseDigitsKeepsDigits(val: string, c: char)
    ensures multiset(ParseDigits(val))[c] == if IsDigit(c) then multiset(val)[c] else 0
    decreases |val|
  {
    if val != [] {
      ParseDigitsKeepsDigits(val[1..], c);
      assert val == [val[0]] + val[1..];
    }
  }

  lemma ParseDigitsIdempotent(val: string)
    ensures ParseDigits(ParseDigits(val)) == ParseDigits(val)
  {
    ParseDigitsOfDigits(ParseDigits(val));
  }

  /** `formatPhone`: dashes after the third and the seventh digit, at most 11 digits kept. */
  function FormatPhone(digits: string): string {
    if |digits| <= 3 then digits
    else if |digits| <= 7 then digits[..3] + "-" + digits[3..]
    else digits[..3] + "-" + digits[3..7] + "-" + digits[7..if |digits| < 11 then |digits| else 11]
  }

  function Min(a: int, b: int): int {
    if a <= b then a else b
  }

  /** Where the dashes go, by the number of digits. */
  lemma FormatPhoneShape(d: string)
    ensures |d| <= 3 ==> FormatPhone(d) == d
    ensures 4 <= |d| <= 7 ==> |FormatPhone(d)| == |d| + 1 && FormatPhone(d)[3] == '-'
    ensures 8 <= |d| ==>
      |FormatPhone(d)| == Min(|d|, 11) + 2 && FormatPhone(d)[3] == '-' && FormatPhone(d)[8] == '-'
  {
  }

  lemma ParseDigitsAroundDash(x: string, y: string)
    requires AllDigits(x) && AllDigits(y)
    ensures ParseDigits(x + "-" + y) == x + y
  {
    ParseDigitsConcat(x + "-", y);
    ParseDigitsConcat(x, "-");
    ParseDigitsOfDigits(x);
    ParseDigitsOfDigits(y);
    assert ParseDigits("-") == "";
    assert ParseDigits(x + "-") == x;
  }

  /** Stripping the dashes again gives back the digits, cut to 11. */
  lemma FormatPhoneRoundTrip(d: string)
    requires AllDigits(d)
    ensures ParseDigits(FormatPhone(d)) == d[..Min(|d|, 11)]
  {
    if |d| <= 3 {
      ParseDigitsOfDigits(d);
      assert d[..|d|] == d;
    } else if |d| <= 7 {
      ParseDigitsAroundDash(d[..3], d[3..]);
      assert d[..3] + d[3..] == d[..|d|];
    } else {
      var e := Min(|d|, 11);
      ParseDigitsAroundDashes(d[..3], d[3..7], d[7..e]);
      assert d[..3] + d[3..7] + d[7..e] == d[..e];
    }
  }

  lemma ParseDigitsAroundDashes(x: string, y: string, z: string)
    requires AllDigits(x) && AllDigits(y) && AllDigits(z)
    ensures ParseDigits(x + "-" + y + "-" + z) == x + y + z
  {
    ParseDigitsAroundDash(x, y);
    ParseDigitsAroundDash(x + y, z);
    assert x + "-" + y + "-" + z == (x + "-" + y) + ("-" + z);
    ParseDigitsConcat(x + "-" + y, "-" + z);
    ParseDigitsConcat("-", z);
    ParseDigitsOfDigits(z);
    assert ParseDigits("-") == "";
  }

  const DayLabels: seq<string> := ["일", "월", "화", "수", "목", "금", "토"]

  /** `getDayOfWeek` on the weekday index a `Date` reports (0 = Sunday). */
  function DayOfWeek(day: nat): (r: string)
    requires day < 7
    ensures |r| == 1
  {
    DayLabels[day]
  }

  /** Sunday to Saturday, in order, each day its own label. */
  lemma DayOfWeekNames()
    ensures [DayOfWeek(0), DayOfWeek(1), DayOfWeek(2), DayOfWeek(3), DayOfWeek(4), DayOfWeek(5), DayOfWeek(6)]
         == ["일", "월", "화", "수", "목", "금", "토"]
    ensures forall i, j :: 0 <= i < 7 && 0 <= j < 7 && DayOfWeek(i) == DayOfWeek(j) ==> i == j
  {
  }
}
