/**
 * The texts that String and toISOString print for numbers and dates. Dates are exactly those that
 * exist; numbers follow the cases of Number::toString in section 6.1.6.1.20 of ECMA-262, with at
 * most 17 significant digits.
 */
module Scalars {
  predicate IsDigit(c: char) {
    '0' <= c <= '9'
  }

  predicate Digits(s: string) {
    s != "" && forall i | 0 <= i < |s| :: IsDigit(s[i])
  }

  /** The value of a run of digits. */
  function Value(s: string): nat {
    if s == "" || !IsDigit(s[|s| - 1]) then 0 else 10 * Value(s[..|s| - 1]) + (s[|s| - 1] - '0') as nat
  }

  // ---- numbers ----

  const PRECISION: nat := 17

  /** No leading zero but in zero itself. */
  predicate WholeText(s: string) {
    Digits(s) && (s == "0" || s[0] != '0')
  }

  /** Up to 21 digits, zeros after the significant ones. */
  predicate IntegerText(s: string) {
    WholeText(s) && |s| <= 21 && forall i | PRECISION <= i < |s| :: s[i] == '0'
  }

  /** Digits, a point and digits without a closing zero. */
  predicate HasPoint(s: string, k: nat) {
    k < |s| && s[k] == '.' && WholeText(s[..k]) && Digits(s[k + 1..]) && s[|s| - 1] != '0'
  }

  function LeadingZeros(s: string): nat {
    if s == "" || s[0] != '0' then 0 else 1 + LeadingZeros(s[1..])
  }

  /** Below one, at most five zeros follow the point. */
  predicate FractionText(s: string) {
    exists k | 0 <= k < |s| ::
      HasPoint(s, k) &&
      if s[..k] == "0" then LeadingZeros(s[k + 1..]) <= 5 && |s| - 2 - LeadingZeros(s[k + 1..]) <= PRECISION
      else |s| - 1 <= PRECISION
  }

  /** One significant digit, and more after a point. */
  predicate MantissaText(s: string) {
    || (|s| == 1 && IsDigit(s[0]) && s[0] != '0')
    || (HasPoint(s, 1) && s[0] != '0' && |s| - 1 <= PRECISION)
  }

  /** A mantissa, the letter, a sign and digits. */
  predicate HasExponent(s: string, k: nat) {
    && k + 1 < |s| && s[k] == 'e' && (s[k + 1] == '+' || s[k + 1] == '-')
    && MantissaText(s[..k]) && WholeText(s[k + 2..])
  }

  /** Exponents from 21 up to 308, and from -7 down to -324. */
  predicate ExponentText(s: string) {
    exists k | 0 <= k < |s| - 1 ::
      HasExponent(s, k) &&
      if s[k + 1] == '+' then 21 <= Value(s[k + 2..]) <= 308 else 7 <= Value(s[k + 2..]) <= 324
  }

  predicate MagnitudeText(s: string) {
    s == "Infinity" || IntegerText(s) || FractionText(s) || ExponentText(s)
  }

  /** The shape of what String gives for a number; negative zero prints as zero. */
  predicate IsNumberText(s: string) {
    s == "NaN" || MagnitudeText(s) || (|s| > 1 && s[0] == '-' && s[1..] != "0" && MagnitudeText(s[1..]))
  }

  // ---- dates ----

  /** Letter by letter, with any digit in the place of a 9. */
  predicate Fits(s: string, shape: string) {
    |s| == |shape| && forall i | 0 <= i < |s| :: if shape[i] == '9' then IsDigit(s[i]) else s[i] == shape[i]
  }

  predicate IsLeap(year: int) {
    year % 4 == 0 && (year % 100 != 0 || year % 400 == 0)
  }

  function DaysIn(year: int, month: int): int {
    if month == 2 then (if IsLeap(year) then 29 else 28)
    else if month in {4, 6, 9, 11} then 30 else 31
  }

  /** The number two characters spell. */
  function Two(s: string, i: nat): int
    requires i + 1 < |s|
  {
    10 * (s[i] as int - '0' as int) + (s[i + 1] as int - '0' as int)
  }

  /** The text from position i on, "-MM-DDTHH:MM:SS.sssZ", names a moment of the year. */
  predicate MomentOf(year: int, s: string, i: nat)
    requires |s| == i + 20
  {
    && 1 <= Two(s, i + 1) <= 12 && 1 <= Two(s, i + 4) <= DaysIn(year, Two(s, i + 1))
    && Two(s, i + 7) <= 23 && Two(s, i + 10) <= 59 && Two(s, i + 13) <= 59
  }

  /** A date exists up to 100 million days on either side of 1970. */
  predicate InRange(year: int, s: string, i: nat)
    requires |s| == i + 20
  {
    var month, day := Two(s, i + 1), Two(s, i + 4);
    && -271821 <= year <= 275760
    && (year == -271821 ==> month > 4 || (month == 4 && day >= 20))
    && (year == 275760 ==> month < 9 || (month == 9 && day <= 12) || s[i..] == "-09-13T00:00:00.000Z")
  }

  function LongYear(s: string): int
    requires |s| >= 7
  {
    10000 * Two(s, 1) + 100 * Two(s, 3) + Two(s, 5)
  }

  predicate IsDateText(s: string) {
    || (Fits(s, "9999-99-99T99:99:99.999Z") && MomentOf(100 * Two(s, 0) + Two(s, 2), s, 4))
    || (Fits(s, "+999999-99-99T99:99:99.999Z") && LongYear(s) >= 10000
        && MomentOf(LongYear(s), s, 7) && InRange(LongYear(s), s, 7))
    || (Fits(s, "-999999-99-99T99:99:99.999Z") && LongYear(s) >= 1
        && MomentOf(-LongYear(s), s, 7) && InRange(-LongYear(s), s, 7))
  }

  type NumberText = s: string | IsNumberText(s) witness "0"

  type DateText = s: string | IsDateText(s) witness "1970-01-01T00:00:00.000Z"

  // ---- what tells them from other texts ----

  /** The characters a printed number is made of. */
  predicate Numeric(c: char) {
    IsDigit(c) || c in {'.', 'e', '+', '-', 'N', 'a', 'I', 'n', 'f', 'i', 't', 'y'}
  }

  lemma PointFacts(s: string, k: nat)
    requires HasPoint(s, k)
    ensures IsDigit(s[0]) && IsDigit(s[|s| - 1]) && forall i | 0 <= i < |s| :: IsDigit(s[i]) || s[i] == '.'
  {
    assert s[0] == s[..k][0];
    assert s[|s| - 1] == s[k + 1..][|s| - k - 2];
    forall i | 0 <= i < |s| ensures IsDigit(s[i]) || s[i] == '.' {
      assert i < k ==> s[i] == s[..k][i];
      assert i > k ==> s[i] == s[k + 1..][i - k - 1];
    }
  }

  lemma MantissaFacts(s: string)
    requires MantissaText(s)
    ensures IsDigit(s[0]) && forall i | 0 <= i < |s| :: Numeric(s[i])
  {
    if |s| != 1 {
      PointFacts(s, 1);
    }
  }

  lemma ExponentFacts(s: string, k: nat)
    requires HasExponent(s, k)
    ensures IsDigit(s[0]) && IsDigit(s[|s| - 1]) && forall i | 0 <= i < |s| :: Numeric(s[i])
  {
    MantissaFacts(s[..k]);
    assert s[0] == s[..k][0] && s[|s| - 1] == s[k + 2..][|s| - k - 3];
    forall i | 0 <= i < |s| ensures Numeric(s[i]) {
      assert i < k ==> s[i] == s[..k][i];
      assert i > k + 1 ==> s[i] == s[k + 2..][i - k - 2];
    }
  }

  lemma MagnitudeFacts(s: string)
    requires MagnitudeText(s)
    ensures s != "" && (IsDigit(s[0]) || s[0] == 'I') && (IsDigit(s[|s| - 1]) || s[|s| - 1] == 'y')
    ensures forall i | 0 <= i < |s| :: Numeric(s[i])
  {
    if FractionText(s) {
      var k :| 0 <= k < |s| && HasPoint(s, k);
      PointFacts(s, k);
    } else if ExponentText(s) {
      var k :| 0 <= k < |s| - 1 && HasExponent(s, k);
      ExponentFacts(s, k);
    }
  }

  /** How a number's text begins and ends, which tells it from the texts of the other scalars. */
  lemma NumberFacts(s: NumberText)
    ensures s != "" && (IsDigit(s[0]) || s[0] in {'-', 'I', 'N'}) && s[|s| - 1] != 'Z'
    ensures forall i | 0 <= i < |s| :: Numeric(s[i])
  {
    if s == "NaN" {
    } else if MagnitudeText(s) {
      MagnitudeFacts(s);
    } else {
      MagnitudeFacts(s[1..]);
      assert forall i | 0 < i < |s| :: s[i] == s[1..][i - 1];
    }
  }

  lemma ShapeFacts(s: string, shape: string)
    requires shape in {"9999-99-99T99:99:99.999Z", "+999999-99-99T99:99:99.999Z", "-999999-99-99T99:99:99.999Z"}
    requires Fits(s, shape)
    ensures s != "" && (IsDigit(s[0]) || s[0] in {'+', '-'}) && s[|s| - 1] == 'Z'
    ensures forall i | 0 <= i < |s| :: IsDigit(s[i]) || s[i] in {'+', '-', 'T', ':', '.', 'Z'}
  {
    assert forall i | 0 <= i < |shape| :: shape[i] == '9' || shape[i] in {'+', '-', 'T', ':', '.', 'Z'};
  }

  lemma DateFacts(s: DateText)
    ensures s != "" && (IsDigit(s[0]) || s[0] in {'+', '-'}) && s[|s| - 1] == 'Z'
    ensures forall i | 0 <= i < |s| :: IsDigit(s[i]) || s[i] in {'+', '-', 'T', ':', '.', 'Z'}
  {
    var short, later, earlier := "9999-99-99T99:99:99.999Z", "+999999-99-99T99:99:99.999Z", "-999999-99-99T99:99:99.999Z";
    if Fits(s, short) {
      ShapeFacts(s, short);
    } else if Fits(s, later) {
      ShapeFacts(s, later);
    } else {
      ShapeFacts(s, earlier);
    }
  }

  /** Without a point or an exponent only the plain integers are left. */
  lemma NoPointNoExponent(s: string)
    requires forall k | 0 <= k < |s| :: s[k] != '.' && s[k] != 'e'
    ensures !FractionText(s) && !ExponentText(s)
  {
  }

  /** Texts that look like numbers or a date and are not printed for any. */
  lemma NegativeZeroUnprinted()
    ensures !IsNumberText("-0")
  {
    NoPointNoExponent("-0");
  }

  lemma PaddedUnprinted()
    ensures !IsNumberText("007")
  {
    NoPointNoExponent("007");
  }

  lemma ScaledUnprinted(s: string)
    requires s == "100e+0"
    ensures !IsNumberText(s)
  {
    assert s[3] == 'e' && forall k | 0 <= k < 6 && k != 3 :: s[k] != 'e';
    assert s[..3] == "100" && !MantissaText("100");
    assert !HasExponent(s, 3);
    assert forall k | 0 <= k < 6 :: s[k] != '.';
    assert !IsDigit(s[3]);
  }

  lemma MonthUnprinted(s: string)
    requires Fits(s, "9999-99-99T99:99:99.999Z") && Two(s, 5) > 12
    ensures !IsDateText(s)
  {
  }
}
