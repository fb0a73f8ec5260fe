/**
 * `is_valid_afm` of computeSales.py: the check applied to a customer tax
 * identifier (AFM, ten decimal digits) before its report is looked up.
 */
module Afm {

  predicate IsDigit(c: char)
  {
    '0' <= c <= '9'
  }

  predicate AllDigits(s: string)
  {
    forall i :: 0 <= i < |s| ==> IsDigit(s[i])
  }

  /**
   * Python's `int(s)` succeeds, for strings without surrounding whitespace,
   * `_` separators or non-ASCII digits: an optional sign followed by at
   * least one ASCII digit.
   */
  predicate ParsesAsInt(s: string)
  {
    if |s| > 0 && (s[0] == '+' || s[0] == '-') then |s| > 1 && AllDigits(s[1..])
    else |s| > 0 && AllDigits(s)
  }

  /**
   * `is_valid_afm` as written: `int(afm)` must succeed, the length must be
   * 10 and there must be no `-`. Besides ten digits this also accepts a
   * leading `+` followed by nine digits.
   */
  function IsValidAfmAsWritten(afm: string): (r: bool)
    ensures r ==> |afm| == 10 && '-' !in afm
    ensures r <==> |afm| == 10 && (AllDigits(afm) || (afm[0] == '+' && AllDigits(afm[1..])))
  {
    ParsesAsInt(afm) && |afm| == 10 && '-' !in afm
  }

  /**
   * The check as evidently intended: the `+` sign is refused like the `-`
   * sign, so exactly the strings of ten ASCII digits are accepted.
   */
  function IsValidAfm(afm: string): (r: bool)
    ensures r <==> |afm| == 10 && AllDigits(afm)
  {
    IsValidAfmAsWritten(afm) && '+' !in afm
  }

  /** The written check lets a signed nine-digit number through. */
  lemma AsWrittenAcceptsPlusSign()
    ensures IsValidAfmAsWritten("+123456789")
    ensures !IsValidAfm("+123456789")
  {
  }

  /**
   * Both checks accept `1234567890` and reject nine or eleven digits, a
   * `-` separator and letters.
   */
  lemma AfmExamples()
    ensures IsValidAfmAsWritten("1234567890") && IsValidAfm("1234567890")
    ensures !IsValidAfmAsWritten("123456789") && !IsValidAfm("123456789")
    ensures !IsValidAfmAsWritten("12345678901") && !IsValidAfm("12345678901")
    ensures !IsValidAfmAsWritten("123-456789") && !IsValidAfm("123-456789")
    ensures !IsValidAfmAsWritten("12345ABCDE") && !IsValidAfm("12345ABCDE")
  {
    assert !IsDigit("12345ABCDE"[5]);
    assert !IsDigit("12345ABCDE"[1..][4]);
  }
}
