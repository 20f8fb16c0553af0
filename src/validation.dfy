/** ValidationUtil: the form-field validators. A null text is None;
    Double.parseDouble is a parameter (decimal parsing is not modelled). */
module ValidationUtil {
  import opened Wrappers
  import opened JavaText

  const MIN_YEAR: int := 1900
  const MAX_YEAR: int := 2030
  const MAX_MILEAGE: int := 999999

  /** isValidNumber: non-blank text that Double.parseDouble accepts. */
  predicate IsValidNumber(text: Option<string>, parseDouble: string -> Option<real>) {
    text.Some? && !IsBlank(text.value) && parseDouble(text.value).Some?
  }

  /** isValidYear: blank is fine (the year is optional), otherwise an int in 1900..2030. */
  predicate IsValidYear(text: Option<string>) {
    text.None? || IsBlank(text.value)
    || (ParseInt(text.value).Some? && MIN_YEAR <= ParseInt(text.value).value <= MAX_YEAR)
  }

  /** isValidMileage: blank is fine, otherwise an int in 0..999999. */
  predicate IsValidMileage(text: Option<string>) {
    text.None? || IsBlank(text.value)
    || (ParseInt(text.value).Some? && 0 <= ParseInt(text.value).value <= MAX_MILEAGE)
  }

  /** isValidPrice: a valid number that is positive. */
  predicate IsValidPrice(text: Option<string>, parseDouble: string -> Option<real>) {
    IsValidNumber(text, parseDouble) && parseDouble(text.value).value > 0.0
  }

  /** isNotEmpty: something is left after trimming. */
  predicate IsNotEmpty(text: Option<string>) {
    text.Some? && Trim(text.value) != ""
  }

  /** isValidLength: the trimmed length lies in minLen..maxLen; null fails. */
  predicate IsValidLength(text: Option<string>, minLen: int, maxLen: int) {
    text.Some? && minLen <= |Trim(text.value)| <= maxLen
  }

  const ERROR_PREFIX: string := "❌ Поле \""
  const ERROR_MIDDLE: string := "\": "

  /** formatValidationError. */
  function FormatValidationError(fieldName: string, issue: string): (r: string)
    ensures |r| == |ERROR_PREFIX| + |fieldName| + |ERROR_MIDDLE| + |issue|
  {
    ERROR_PREFIX + fieldName + ERROR_MIDDLE + issue
  }

  /** The field name and the issue can be read back from the message. */
  lemma FormatValidationErrorParts(fieldName: string, issue: string)
    ensures var r := FormatValidationError(fieldName, issue);
      && r[..|ERROR_PREFIX|] == ERROR_PREFIX
      && r[|ERROR_PREFIX|..|ERROR_PREFIX| + |fieldName|] == fieldName
      && r[|r| - |issue|..] == issue
  {
    var r := FormatValidationError(fieldName, issue);
    assert r == ERROR_PREFIX + (fieldName + (ERROR_MIDDLE + issue));
  }

  /** Every year 1900..2030 written by Integer.toString is accepted, and a
      non-blank text is accepted only when it parses to such a year. */
  lemma IsValidYearSpec(y: int, t: string)
    ensures IsValidYear(None) && IsValidYear(Some(""))
    ensures MIN_YEAR <= y <= MAX_YEAR ==> IsValidYear(Some(IntToString(y)))
    ensures !IsBlank(t) ==>
      (IsValidYear(Some(t)) <==> exists v :: MIN_YEAR <= v <= MAX_YEAR && ParseInt(t) == Some(v))
  {
    if MIN_YEAR <= y <= MAX_YEAR {
      ParseIntToString(y);
    }
  }

  /** The same for mileage, 0..999999. */
  lemma IsValidMileageSpec(m: int, t: string)
    ensures IsValidMileage(None) && IsValidMileage(Some(""))
    ensures 0 <= m <= MAX_MILEAGE ==> IsValidMileage(Some(IntToString(m)))
    ensures 0 > m && m >= INT_MIN ==> !IsValidMileage(Some(IntToString(m)))
    ensures !IsBlank(t) ==>
      (IsValidMileage(Some(t)) <==> exists v :: 0 <= v <= MAX_MILEAGE && ParseInt(t) == Some(v))
  {
    if INT_MIN <= m <= INT_MAX {
      ParseIntToString(m);
      assert !IsBlank(IntToString(m)) by {
        NotBlankDigits(m);
      }
    }
  }

  /** A printed number has a digit, so it is not blank. */
  lemma NotBlankDigits(n: int)
    ensures !IsBlank(IntToString(n))
  {
    var s := IntToString(n);
    var k := if n < 0 then 1 else 0;
    assert IsDigit(s[k]);
  }

  /** A valid price is a valid number. */
  lemma IsValidPriceIsNumber(text: Option<string>, parseDouble: string -> Option<real>)
    ensures IsValidPrice(text, parseDouble) ==> IsValidNumber(text, parseDouble)
    ensures text.None? ==> !IsValidPrice(text, parseDouble)
  {
  }

  /** isNotEmpty holds exactly when the text has a character above U+0020, and a
      length check with a positive minimum implies it. */
  lemma IsNotEmptySpec(t: string, minLen: int, maxLen: int)
    ensures IsNotEmpty(Some(t)) <==> exists i :: 0 <= i < |t| && !IsTrimmable(t[i])
    ensures !IsNotEmpty(None) && !IsValidLength(None, minLen, maxLen)
    ensures 1 <= minLen && IsValidLength(Some(t), minLen, maxLen) ==> IsNotEmpty(Some(t))
  {
    TrimEmpty(t);
  }
}
