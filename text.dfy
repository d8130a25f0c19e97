/**
 * Models of the JavaScript string built-ins the app relies on:
 * `String(n)` for non-negative integers, `padStart`, `trim`, `startsWith`,
 * `split` on a one-character separator, `join`, and `parseInt` without a radix.
 */
module Text {

  // ---------------------------------------------------------------- digits

  predicate IsDigit(c: char) {
    '0' <= c <= '9'
  }

  predicate AllDigits(s: string) {
    forall i :: 0 <= i < |s| ==> IsDigit(s[i])
  }

  function DigitChar(d: nat): (c: char)
    requires d < 10
    ensures IsDigit(c) && c as int - '0' as int == d
  {
    ('0' as int + d) as char
  }

  function DigitValue(c: char): (d: nat)
    requires IsDigit(c)
    ensures d < 10 && DigitChar(d) == c
  {
    c as int - '0' as int
  }

  /** `String(n)` for a non-negative integer: its decimal digits, no leading zero. */
  function NatToString(n: nat): (s: string)
    ensures |s| >= 1 && AllDigits(s)
    ensures |s| == 1 <==> n < 10
    ensures |s| > 1 ==> s[0] != '0'
    decreases n
  {
    if n < 10 then [DigitChar(n)] else NatToString(n / 10) + [DigitChar(n % 10)]
  }

  /** The number a string of decimal digits denotes (leading zeros allowed). */
  function DecimalValue(s: string): nat
    requires AllDigits(s)
    decreases |s|
  {
    if s == [] then 0 else DecimalValue(s[..|s| - 1]) * 10 + DigitValue(s[|s| - 1])
  }

  lemma {:induction false} DecimalValueOfNatToString(n: nat)
    ensures DecimalValue(NatToString(n)) == n
    decreases n
  {
    var s := NatToString(n);
    if n >= 10 {
      DecimalValueOfNatToString(n / 10);
      assert s[..|s| - 1] == NatToString(n / 10);
    }
  }

  lemma {:induction false} DecimalValueLeadingZero(s: string)
    requires AllDigits(s)
    ensures AllDigits("0" + s) && DecimalValue("0" + s) == DecimalValue(s)
    decreases |s|
  {
    var t := "0" + s;
    assert AllDigits(t);
    if s != [] {
      DecimalValueLeadingZero(s[..|s| - 1]);
      assert t[..|t| - 1] == "0" + s[..|s| - 1];
    }
  }

  lemma DecimalValueBound(s: string)
    requires AllDigits(s)
    ensures |s| == 1 ==> DecimalValue(s) == DigitValue(s[0])
  {
    if |s| == 1 {
      assert s[..0] == [];
    }
  }

  // ---------------------------------------------------------------- padStart

  /** `s.padStart(width, fill)` with a one-character fill string. */
  function PadStart(s: string, width: nat, fill: char): (r: string)
    ensures |r| == if |s| >= width then |s| else width
    ensures r[|r| - |s|..] == s
    ensures forall i :: 0 <= i < |r| - |s| ==> r[i] == fill
    decreases width - |s|
  {
    if |s| >= width then s else PadStart([fill] + s, width, fill)
  }

  /** `String(n).padStart(2, '0')`. */
  function Pad2(n: nat): string {
    PadStart(NatToString(n), 2, '0')
  }

  lemma NatToStringTwoDigits(n: nat)
    requires n < 100
    ensures NatToString(n) == if n < 10 then [DigitChar(n)] else [DigitChar(n / 10), DigitChar(n % 10)]
  {
    if n >= 10 {
      assert NatToString(n / 10) == [DigitChar(n / 10)];
    }
  }

  lemma Pad2TwoDigits(n: nat)
    requires n < 100
    ensures Pad2(n) == [DigitChar(n / 10), DigitChar(n % 10)]
  {
    NatToStringTwoDigits(n);
    var s := NatToString(n);
    if n < 10 {
      assert PadStart(s, 2, '0') == PadStart([DigitChar(0)] + s, 2, '0');
    }
  }

  lemma Pad2Digits(n: nat)
    requires n < 100
    ensures |Pad2(n)| == 2 && AllDigits(Pad2(n)) && DecimalValue(Pad2(n)) == n
  {
    Pad2TwoDigits(n);
    DecimalValueTwo(DigitChar(n / 10), DigitChar(n % 10));
  }

  lemma DecimalValueTwo(a: char, b: char)
    requires IsDigit(a) && IsDigit(b)
    ensures AllDigits([a, b]) && DecimalValue([a, b]) == DigitValue(a) * 10 + DigitValue(b)
  {
    var s := [a, b];
    assert s[..1] == [a] && s[..1][..0] == [];
    assert DecimalValue(s[..1]) == DigitValue(a);
  }

  // ---------------------------------------------------------------- startsWith

  predicate StartsWith(s: string, prefix: string) {
    |prefix| <= |s| && s[..|prefix|] == prefix
  }

  // ---------------------------------------------------------------- trim

  /**
   * The characters `String.prototype.trim` removes: ECMAScript WhiteSpace
   * (TAB, VT, FF, SP, NBSP, ZWNBSP and the Unicode space separators) and
   * LineTerminator (LF, CR, LS, PS).
   */
  predicate IsJsSpace(c: char) {
    c == '\t' || c == '\U{000B}' || c == '\U{000C}' || c == ' ' || c == '\U{00A0}' || c == '\U{FEFF}'
    || c == '\n' || c == '\r' || c == '\U{2028}' || c == '\U{2029}'
    || c == '\U{1680}' || ('\U{2000}' <= c <= '\U{200A}') || c == '\U{202F}' || c == '\U{205F}' || c == '\U{3000}'
  }

  predicate IsBlank(s: string) {
    forall i :: 0 <= i < |s| ==> IsJsSpace(s[i])
  }

  /** Number of leading characters `trim` drops. */
  function LeadingSpaces(s: string): (n: nat)
    ensures n <= |s|
    ensures IsBlank(s[..n])
    ensures n < |s| ==> !IsJsSpace(s[n])
    decreases |s|
  {
    if s == [] || !IsJsSpace(s[0]) then 0
    else
      var k := LeadingSpaces(s[1..]);
      assert s[1..][..k] == s[1..k + 1];
      k + 1
  }

  /** Number of trailing characters `trim` drops. */
  function TrailingSpaces(s: string): (n: nat)
    ensures n <= |s|
    ensures IsBlank(s[|s| - n..])
    ensures n < |s| ==> !IsJsSpace(s[|s| - 1 - n])
    decreases |s|
  {
    if s == [] || !IsJsSpace(s[|s| - 1]) then 0
    else
      var k := TrailingSpaces(s[..|s| - 1]);
      assert s[..|s| - 1][|s| - 1 - k..] == s[|s| - 1 - k..|s| - 1];
      k + 1
  }

  /** `s.trim()`. */
  function Trim(s: string): (r: string)
    ensures |r| <= |s|
    ensures r != [] ==> !IsJsSpace(r[0]) && !IsJsSpace(r[|r| - 1])
  {
    var t := s[LeadingSpaces(s)..];
    t[..|t| - TrailingSpaces(t)]
  }

  /**
   * `s.trim()` is a slice of `s` with only white space before and after it;
   * with the first and last character of a non-empty result not white space,
   * this fixes the result.
   */
  lemma TrimInfix(s: string)
    ensures exists i, j :: 0 <= i <= j <= |s| && Trim(s) == s[i..j] && IsBlank(s[..i]) && IsBlank(s[j..])
  {
    var a := LeadingSpaces(s);
    var t := s[a..];
    var b := TrailingSpaces(t);
    var j := a + |t| - b;
    assert Trim(s) == s[a..j];
    assert s[j..] == t[|t| - b..];
  }

  /** `s.trim()` is empty exactly when every character of `s` is white space. */
  lemma TrimEmptyIffBlank(s: string)
    ensures Trim(s) == [] <==> IsBlank(s)
  {
    var a := LeadingSpaces(s);
    var t := s[a..];
    var b := TrailingSpaces(t);
    if IsBlank(s) {
      assert a == |s|;
    } else {
      var i :| 0 <= i < |s| && !IsJsSpace(s[i]);
      assert forall j :: 0 <= j < a ==> s[..a][j] == s[j];
      assert a <= i;
      assert t[i - a] == s[i];
      assert forall j :: |t| - b <= j < |t| ==> t[|t| - b..][j - (|t| - b)] == t[j];
      assert i - a < |t| - b;
    }
  }

  // ---------------------------------------------------------------- split / join

  /** `s.split(sep)` for a one-character separator. */
  function Split(s: string, sep: char): (r: seq<string>)
    ensures |r| >= 1
    ensures forall k :: 0 <= k < |r| ==> sep !in r[k]
    decreases |s|
  {
    if s == [] then [""]
    else
      var rest := Split(s[1..], sep);
      if s[0] == sep then [""] + rest
      else
        assert sep !in rest[0];
        [[s[0]] + rest[0]] + rest[1..]
  }

  lemma {:induction false} SplitNoSeparator(a: string, sep: char)
    requires sep !in a
    ensures Split(a, sep) == [a]
    decreases |a|
  {
    if a != [] {
      SplitNoSeparator(a[1..], sep);
      assert [a[0]] + a[1..] == a;
    }
  }

  lemma {:induction false} SplitAtSeparator(a: string, b: string, sep: char)
    requires sep !in a
    ensures Split(a + [sep] + b, sep) == [a] + Split(b, sep)
    decreases |a|
  {
    var s := a + [sep] + b;
    if a == [] {
      assert s[1..] == b;
    } else {
      assert s[1..] == a[1..] + [sep] + b;
      SplitAtSeparator(a[1..], b, sep);
      assert [a[0]] + a[1..] == a;
    }
  }

  /** `xs.join(sep)`. */
  function Join(xs: seq<string>, sep: string): string
    decreases |xs|
  {
    if xs == [] then "" else if |xs| == 1 then xs[0] else xs[0] + sep + Join(xs[1..], sep)
  }

  /** Where the `k`-th element starts inside `Join(xs, sep)`. */
  function JoinOffset(xs: seq<string>, sep: string, k: nat): nat
    requires k <= |xs|
    decreases k
  {
    if k == 0 then 0 else JoinOffset(xs, sep, k - 1) + |xs[k - 1]| + |sep|
  }

  lemma {:induction false} JoinOffsetTail(xs: seq<string>, sep: string, k: nat)
    requires 1 <= k <= |xs|
    ensures JoinOffset(xs, sep, k) == |xs[0]| + |sep| + JoinOffset(xs[1..], sep, k - 1)
    decreases k
  {
    if k > 1 {
      JoinOffsetTail(xs, sep, k - 1);
    }
  }

  /** Every element of a join appears, in order, at its offset. */
  lemma {:induction false} JoinElementAt(xs: seq<string>, sep: string, k: nat)
    requires k < |xs|
    ensures JoinOffset(xs, sep, k) + |xs[k]| <= |Join(xs, sep)|
    ensures Join(xs, sep)[JoinOffset(xs, sep, k)..JoinOffset(xs, sep, k) + |xs[k]|] == xs[k]
    decreases |xs|
  {
    if |xs| > 1 {
      var j := Join(xs, sep);
      var tail := Join(xs[1..], sep);
      var head := xs[0] + sep;
      assert j == head + tail;
      if k == 0 {
        assert j[..|xs[0]|] == xs[0];
      } else {
        JoinElementAt(xs[1..], sep, k - 1);
        JoinOffsetTail(xs, sep, k);
        var o := JoinOffset(xs[1..], sep, k - 1);
        SliceAfterPrefix(head, tail, o, o + |xs[k]|);
      }
    }
  }

  /** A slice of `t` read inside `a + t`, shifted by `|a|`. */
  lemma SliceAfterPrefix(a: string, t: string, i: nat, j: nat)
    requires i <= j <= |t|
    ensures (a + t)[|a| + i..|a| + j] == t[i..j]
  {
  }

  /** Between the `k`-th and the next element of a join stands `sep`. */
  lemma {:induction false} JoinSeparatorAt(xs: seq<string>, sep: string, k: nat)
    requires k + 1 < |xs|
    ensures JoinOffset(xs, sep, k + 1) <= |Join(xs, sep)|
    ensures Join(xs, sep)[JoinOffset(xs, sep, k) + |xs[k]|..JoinOffset(xs, sep, k + 1)] == sep
    decreases |xs|
  {
    var j := Join(xs, sep);
    var tail := Join(xs[1..], sep);
    var head := xs[0] + sep;
    assert j == head + tail;
    if k == 0 {
      assert j[|xs[0]|..|head|] == sep;
    } else {
      JoinSeparatorAt(xs[1..], sep, k - 1);
      JoinOffsetTail(xs, sep, k);
      JoinOffsetTail(xs, sep, k + 1);
      var o := JoinOffset(xs[1..], sep, k - 1);
      var o2 := JoinOffset(xs[1..], sep, k);
      assert xs[1..][k - 1] == xs[k];
      assert tail[o + |xs[k]|..o2] == sep;
      SliceAfterPrefix(head, tail, o + |xs[k]|, o2);
      assert JoinOffset(xs, sep, k) + |xs[k]| == |head| + o + |xs[k]|;
      assert JoinOffset(xs, sep, k + 1) == |head| + o2;
    }
  }

  // ---------------------------------------------------------------- parseInt

  predicate IsHexDigit(c: char) {
    IsDigit(c) || ('a' <= c <= 'f') || ('A' <= c <= 'F')
  }

  function HexValue(c: char): nat
    requires IsHexDigit(c)
  {
    if IsDigit(c) then DigitValue(c) else if 'a' <= c <= 'f' then c as int - 'a' as int + 10 else c as int - 'A' as int + 10
  }

  /** Length of the longest prefix of `s` made of digits of the given radix (10 or 16). */
  function DigitRun(s: string, hex: bool): (n: nat)
    ensures n <= |s|
    ensures forall i :: 0 <= i < n ==> (if hex then IsHexDigit(s[i]) else IsDigit(s[i]))
    ensures n < |s| ==> !(if hex then IsHexDigit(s[n]) else IsDigit(s[n]))
    decreases |s|
  {
    if s != [] && (if hex then IsHexDigit(s[0]) else IsDigit(s[0])) then DigitRun(s[1..], hex) + 1 else 0
  }

  function RadixValue(s: string, hex: bool): nat
    requires forall i :: 0 <= i < |s| ==> (if hex then IsHexDigit(s[i]) else IsDigit(s[i]))
    decreases |s|
  {
    if s == [] then 0
    else RadixValue(s[..|s| - 1], hex) * (if hex then 16 else 10)
         + (if hex then HexValue(s[|s| - 1]) else DigitValue(s[|s| - 1]))
  }

  lemma {:induction false} RadixValueDecimal(s: string)
    requires AllDigits(s)
    ensures RadixValue(s, false) == DecimalValue(s)
    decreases |s|
  {
    if s != [] {
      RadixValueDecimal(s[..|s| - 1]);
    }
  }

  /**
   * `parseInt(s)` with no radix argument: skip leading white space, take an
   * optional sign, read hexadecimal digits after a `0x`/`0X` prefix and decimal
   * digits otherwise, and stop at the first character that is not a digit.
   * `None` stands for `NaN` (no digit read). A parsed `-0` is the integer 0.
   */
  function ParseInt(s: string): Option<int> {
    ParseSigned(s[LeadingSpaces(s)..])
  }

  function ParseSigned(t: string): Option<int> {
    if t != [] && t[0] == '-' then
      match ParseUnsigned(t[1..])
      case None => None
      case Some(v) => Some(-v)
    else if t != [] && t[0] == '+' then ParseUnsigned(t[1..])
    else ParseUnsigned(t)
  }

  function ParseUnsigned(u: string): Option<int> {
    if |u| >= 2 && u[0] == '0' && (u[1] == 'x' || u[1] == 'X') then ParseRun(u[2..], true)
    else ParseRun(u, false)
  }

  function ParseRun(body: string, hex: bool): Option<int> {
    var n := DigitRun(body, hex);
    if n == 0 then None else Some(RadixValue(body[..n], hex))
  }

  datatype Option<T> = None | Some(value: T)

  /** A string of decimal digits parses to the number it denotes. */
  lemma ParseIntDigits(s: string)
    requires |s| >= 1 && AllDigits(s)
    ensures ParseInt(s) == Some(DecimalValue(s))
  {
    assert LeadingSpaces(s) == 0 by {
      assert !IsJsSpace(s[0]);
    }
    assert s[0..] == s;
    assert |s| >= 2 ==> s[1] != 'x' && s[1] != 'X' by {
      if |s| >= 2 {
        assert IsDigit(s[1]);
      }
    }
    assert ParseInt(s) == ParseRun(s, false);
    var n := DigitRun(s, false);
    assert n == |s|;
    assert s[..n] == s;
    RadixValueDecimal(s);
  }

  /** `${n}` for an integer: a minus sign before the digits of a negative value. */
  function IntToString(i: int): string {
    if i < 0 then "-" + NatToString(-i) else NatToString(i)
  }

  /** `${x}` for the number `parseInt` returns, `NaN` included. */
  function NumberToString(x: Option<int>): string {
    match x
    case None => "NaN"
    case Some(i) => IntToString(i)
  }
}
