/** The phone number field: forced `010` prefix, 11-digit cut, dashes, and a sticky error message. */
module InputPhone {
  import opened Text
  import opened Helpers

  /** What the field reports to its owner on every change. */
  datatype PhoneField = PhoneField(value: string, isValid: bool)

  const FormatError: string := "양식에 맞게 작성해주세요"

  /** `value || '010-'`. */
  function InitialValue(value: string): string {
    if value == "" then "010-" else value
  }

  /** The input after the prefix repair: kept if it starts with `010-`, else `010-` before its digits. */
  function Normalized(raw: string): string {
    if StartsWith(raw, "010-") then raw else "010-" + ParseDigits(raw)
  }

  /** The digits of the repaired input, at most 11. */
  function TruncatedDigits(raw: string): string {
    var digits := ParseDigits(Normalized(raw));
    digits[..Min(|digits|, 11)]
  }

  /** The message after one change with `digits`: cleared when valid, set past 3 digits, else kept. */
  function NextError(error: string, digits: string): string {
    if |digits| == 11 then "" else if |digits| > 3 then FormatError else error
  }

  lemma StartsWithPrefix(raw: string)
    requires StartsWith(raw, "010-")
    ensures raw == "010-" + raw[4..]
  {
    assert raw[..4] == "010-";
  }

  /** Whatever is typed, the digits start with `010` and number 3 to 11. */
  lemma TruncatedDigitsShape(raw: string)
    ensures var t := TruncatedDigits(raw);
      AllDigits(t) && 3 <= |t| <= 11 && t[..3] == "010"
  {
    var rest := if StartsWith(raw, "010-") then raw[4..] else ParseDigits(raw);
    if StartsWith(raw, "010-") {
      StartsWithPrefix(raw);
    }
    assert Normalized(raw) == "010-" + rest;
    ParseDigitsConcat("010-", rest);
    assert ParseDigits("010-") == "010";
    var digits := ParseDigits(Normalized(raw));
    assert digits == "010" + ParseDigits(rest);
    assert digits[..Min(|digits|, 11)][..3] == digits[..3];
  }

  /** The displayed value is the dashed form of those digits: it strips back to them, so never more than 11 digits. */
  lemma FormattedHoldsDigits(raw: string)
    ensures var t := TruncatedDigits(raw);
      ParseDigits(FormatPhone(t)) == t && |ParseDigits(FormatPhone(t))| <= 11
      && StartsWith(FormatPhone(t), "010")
  {
    var t := TruncatedDigits(raw);
    TruncatedDigitsShape(raw);
    FormatPhoneRoundTrip(t);
    assert t[..|t|] == t;
    assert FormatPhone(t)[..3] == t[..3];
  }

  /** Digits already in shape pass through unchanged, when shown with their dashes. */
  lemma WellFormedInputKept(d: string)
    requires AllDigits(d) && |d| == 11 && d[..3] == "010"
    ensures TruncatedDigits(FormatPhone(d)) == d
  {
    assert FormatPhone(d)[..4] == "010-";
    FormatPhoneRoundTrip(d);
    assert d[..11] == d;
  }

  /**
   * Clearing the digits after `010-` shows `010` without its dash; a digit typed
   * then gives `0105`, which lacks the `010-` prefix, so a second `010` goes in front.
   */
  lemma PrefixRepeatedWithoutDash()
    ensures FormatPhone(TruncatedDigits("010-")) == "010"
    ensures TruncatedDigits("0105") == "0100105"
  {
    assert StartsWith("010-", "010-");
    assert "0105"[3] != '-';
    assert !StartsWith("0105", "010-");
    ParseDigitsOfDigits("0105");
    ParseDigitsOfDigits("010");
    ParseDigitsConcat("010-", "0105");
    ParseDigitsConcat("010-", "010");
    assert ParseDigits("010-") == "010";
    assert ParseDigits("010-" + "0105") == "0100105";
  }

  /** The error is cleared exactly when valid, shown past 3 invalid digits, and otherwise persists. */
  lemma NextErrorCases(error: string, raw: string)
    ensures var t := TruncatedDigits(raw);
      (|t| == 11 ==> NextError(error, t) == "")
      && (|t| != 11 && |t| > 3 ==> NextError(error, t) == FormatError)
      && (|t| <= 3 ==> NextError(error, t) == error && t == "010")
  {
    TruncatedDigitsShape(raw);
    var t := TruncatedDigits(raw);
    if |t| <= 3 {
      assert t == t[..3];
    }
  }

  class PhoneInput {
    var innerValue: string
    var error: string

    constructor (value: string)
      ensures innerValue == InitialValue(value) && error == ""
    {
      innerValue := if value == "" then "010-" else value;
      error := "";
    }

    /** `handleChange`: repair, strip, cut, format; returns what `onChange` receives. */
    method HandleChange(raw: string) returns (field: PhoneField)
      modifies this
      ensures field.value == FormatPhone(TruncatedDigits(raw)) && innerValue == field.value
      ensures field.isValid <==> |TruncatedDigits(raw)| == 11
      ensures error == NextError(old(error), TruncatedDigits(raw))
    {
      var input := raw;
      if !StartsWith(input, "010-") {
        input := "010-" + ParseDigits(input);
      }
      var digits := ParseDigits(input);
      var truncatedDigits := digits[..if |digits| < 11 then |digits| else 11];
      var formatted := FormatPhone(truncatedDigits);
      innerValue := formatted;
      var isValid := |truncatedDigits| == 11;
      if isValid {
        error := "";
      } else if |truncatedDigits| > 3 {
        error := FormatError;
      }
      field := PhoneField(formatted, isValid);
    }
  }
}
