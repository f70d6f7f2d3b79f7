/** src/LibAddressInput/Utils/StringUtils.cs: the two guards the builder's rules rest on. */
module StringUtils {
  import opened Wrappers
  import opened Exceptions
  import opened Text

  /** Rejects null and "" and passes every other string through unchanged; a string
      made only of white space is accepted. */
  function CheckNotNull(value: Option<string>): (r: Result<string, Exception>)
    ensures r.Failure? <==> value.None? || value.value == ""
    ensures r.Failure? ==> r.error == ValueNullOrEmpty
    ensures r.Success? ==> value == Some(r.value)
  {
    if IsNullOrEmpty(value) then Failure(ValueNullOrEmpty) else Success(value.value)
  }

  /** A value as the builder stores it: non-empty, without leading or trailing white space. */
  ghost predicate IsStoredForm(s: string) {
    s != [] && IsTrimmed(s)
  }

  /** Trims `value`, and turns null and all-white-space strings into null. A non-null
      result is in stored form and is a contiguous part of the input. */
  function TrimToNull(value: Option<string>): (r: Option<string>)
    ensures r.None? <==> value.None? || AllWhiteSpace(value.value)
    ensures r.Some? ==> IsStoredForm(r.value) && IsInfix(r.value, value.value)
  {
    if value.None? then None
    else
      var trimmed := Trim(value.value);
      if IsNullOrEmpty(Some(trimmed)) then None else Some(trimmed)
  }

  /** What TrimToNull cuts off a non-null result is white space only, so the result
      is fixed by the input. */
  lemma TrimToNullCutsOnlyWhiteSpace(value: Option<string>)
    requires TrimToNull(value).Some?
    ensures var s, r := value.value, TrimToNull(value).value;
      exists i, j :: 0 <= i <= j <= |s| && s[i..j] == r && AllWhiteSpace(s[..i]) && AllWhiteSpace(s[j..])
  {
  }

  /** Applying TrimToNull to its own result changes nothing. */
  lemma TrimToNullIdempotent(value: Option<string>)
    ensures TrimToNull(TrimToNull(value)) == TrimToNull(value)
  {
    if TrimToNull(value).Some? {
      TrimToNullKeepsStoredForm(TrimToNull(value).value);
    }
  }

  /** A string already in stored form comes back unchanged. */
  lemma TrimToNullKeepsStoredForm(s: string)
    requires IsStoredForm(s)
    ensures TrimToNull(Some(s)) == Some(s)
  {
  }
}
