/** The .NET string operations the core relies on: char.IsWhiteSpace, string.Trim,
    string.Split(char), string.Contains(char), string.IsNullOrEmpty,
    string.IsNullOrWhiteSpace and string.ToLowerInvariant. */
module Text {
  import opened Wrappers

  /** char.IsWhiteSpace: the characters of the Unicode White_Space property. */
  predicate IsWhiteSpace(c: char) {
    || ('\t' <= c <= '\r')                      // U+0009 .. U+000D
    || c == ' ' || c == '\U{85}' || c == '\U{A0}' || c == '\U{1680}'
    || ('\U{2000}' <= c <= '\U{200A}')
    || c == '\U{2028}' || c == '\U{2029}' || c == '\U{202F}' || c == '\U{205F}' || c == '\U{3000}'
  }

  predicate AllWhiteSpace(s: string) {
    forall i :: 0 <= i < |s| ==> IsWhiteSpace(s[i])
  }

  /** Neither the first nor the last character is white space. */
  ghost predicate IsTrimmed(s: string) {
    s == [] || (!IsWhiteSpace(s[0]) && !IsWhiteSpace(s[|s| - 1]))
  }

  /** `r` occurs in `s` as a contiguous block. */
  ghost predicate IsInfix(r: string, s: string) {
    exists i, j :: 0 <= i <= j <= |s| && s[i..j] == r
  }

  /** The first index from `i` on that does not hold white space, or |s|. */
  function SkipWhiteSpace(s: string, i: nat): (j: nat)
    requires i <= |s|
    ensures i <= j <= |s|
    ensures forall k :: i <= k < j ==> IsWhiteSpace(s[k])
    ensures j < |s| ==> !IsWhiteSpace(s[j])
    decreases |s| - i
  {
    if i < |s| && IsWhiteSpace(s[i]) then SkipWhiteSpace(s, i + 1) else i
  }

  /** Scanning back from `j` towards `lo`: the end of the last character that is not
      white space, or `lo`. */
  function SkipWhiteSpaceBack(s: string, lo: nat, j: nat): (r: nat)
    requires lo <= j <= |s|
    ensures lo <= r <= j
    ensures forall k :: r <= k < j ==> IsWhiteSpace(s[k])
    ensures r > lo ==> !IsWhiteSpace(s[r - 1])
    decreases j
  {
    if j > lo && IsWhiteSpace(s[j - 1]) then SkipWhiteSpaceBack(s, lo, j - 1) else j
  }

  /** string.Trim(): `s` with its leading and trailing white space removed. What is
      removed is white space only, and what is kept starts and ends with a character
      that is not white space. */
  function Trim(s: string): (r: string)
    ensures IsTrimmed(r)
    ensures exists i, j :: 0 <= i <= j <= |s| && s[i..j] == r && AllWhiteSpace(s[..i]) && AllWhiteSpace(s[j..])
    ensures r == [] <==> AllWhiteSpace(s)
    ensures IsTrimmed(s) ==> r == s
  {
    var lo := SkipWhiteSpace(s, 0);
    var hi := SkipWhiteSpaceBack(s, lo, |s|);
    TrimCut(s, lo, hi);
    s[lo..hi]
  }

  /** What Trim keeps and what it cuts off. */
  lemma TrimCut(s: string, lo: nat, hi: nat)
    requires lo == SkipWhiteSpace(s, 0) && hi == SkipWhiteSpaceBack(s, lo, |s|)
    ensures lo <= hi <= |s|
    ensures AllWhiteSpace(s[..lo]) && AllWhiteSpace(s[hi..])
    ensures IsTrimmed(s[lo..hi])
    ensures s[lo..hi] == [] <==> AllWhiteSpace(s)
    ensures IsTrimmed(s) ==> lo == 0 && hi == |s|
  {
    if lo < hi {
      assert s[lo..hi][0] == s[lo];
      assert s[lo..hi][hi - lo - 1] == s[hi - 1];
    }
    if lo < |s| {
      assert !IsWhiteSpace(s[lo]);
    }
  }

  lemma {:induction false} TrimIdempotent(s: string)
    ensures Trim(Trim(s)) == Trim(s)
  {
    var r := Trim(s);
    assert IsTrimmed(r);
  }

  /** A trimmed string is all white space exactly when it is empty. */
  lemma TrimmedBlankIsEmpty(s: string)
    requires IsTrimmed(s)
    ensures AllWhiteSpace(s) <==> s == []
  {
    if s != [] {
      assert !IsWhiteSpace(s[0]);
    }
  }

  /** string.IsNullOrEmpty */
  predicate IsNullOrEmpty(s: Option<string>) {
    s.None? || s.value == ""
  }

  /** string.IsNullOrWhiteSpace */
  predicate IsNullOrWhiteSpace(s: Option<string>) {
    s.None? || AllWhiteSpace(s.value)
  }

  /** Index of the first occurrence of `c` in `s` (string.IndexOf(char)). */
  function IndexOf(s: string, c: char): (i: nat)
    requires c in s
    ensures i < |s| && s[i] == c && c !in s[..i]
  {
    if s[0] == c then 0
    else
      var i := 1 + IndexOf(s[1..], c);
      assert s[..i] == [s[0]] + s[1..][..i - 1];
      i
  }

  /** The inverse of Split: the parts glued back together with `sep` between them. */
  function Join(parts: seq<string>, sep: char): (s: string)
    requires |parts| > 0
  {
    if |parts| == 1 then parts[0] else parts[0] + [sep] + Join(parts[1..], sep)
  }

  /** string.Split(char): the maximal runs between occurrences of `sep`, empty runs
      included, so a string with k separators has k + 1 parts. */
  function Split(s: string, sep: char): (parts: seq<string>)
    ensures |parts| > 0
    ensures forall k :: 0 <= k < |parts| ==> sep !in parts[k]
    ensures Join(parts, sep) == s
    decreases |s|
  {
    if sep !in s then [s]
    else
      var i := IndexOf(s, sep);
      var rest := Split(s[i + 1..], sep);
      assert s == s[..i] + [sep] + s[i + 1..];
      [s[..i]] + rest
  }

  /** Splitting a joined list of separator-free parts gives the parts back. */
  lemma {:induction false} SplitJoin(parts: seq<string>, sep: char)
    requires |parts| > 0
    requires forall k :: 0 <= k < |parts| ==> sep !in parts[k]
    ensures Split(Join(parts, sep), sep) == parts
  {
    var s := Join(parts, sep);
    if |parts| == 1 {
    } else {
      var tail := Join(parts[1..], sep);
      assert s == parts[0] + [sep] + tail;
      assert s[|parts[0]|] == sep;
      assert s[..|parts[0]|] == parts[0];
      assert IndexOf(s, sep) == |parts[0]|;
      assert s[|parts[0]| + 1..] == tail;
      SplitJoin(parts[1..], sep);
    }
  }

  /** char.ToLowerInvariant, for the ASCII letters A-Z. */
  function ToLowerChar(c: char): char {
    if 'A' <= c <= 'Z' then (c as int + 32) as char else c
  }

  predicate IsAsciiUpper(c: char) {
    'A' <= c <= 'Z'
  }

  predicate IsAsciiLetter(c: char) {
    'A' <= c <= 'Z' || 'a' <= c <= 'z'
  }

  /** The two characters are the same, or are one ASCII letter in its two cases. */
  predicate SameIgnoringCase(x: char, y: char) {
    x == y || (IsAsciiLetter(x) && IsAsciiLetter(y) && (x as int - y as int == 32 || y as int - x as int == 32))
  }

  /** string.ToLowerInvariant: no capital letter is left, every other character is
      kept, and each capital becomes a letter of the same name. */
  function ToLowerInvariant(s: string): (r: string)
    ensures |r| == |s|
    ensures forall i :: 0 <= i < |r| ==> !IsAsciiUpper(r[i])
    ensures forall i :: 0 <= i < |s| && !IsAsciiUpper(s[i]) ==> r[i] == s[i]
    ensures forall i :: 0 <= i < |s| ==> SameIgnoringCase(s[i], r[i])
  {
    seq(|s|, i requires 0 <= i < |s| => ToLowerChar(s[i]))
  }

  /** Two characters lower-case alike exactly when they agree up to ASCII letter case. */
  lemma ToLowerCharAlike(x: char, y: char)
    ensures ToLowerChar(x) == ToLowerChar(y) <==> SameIgnoringCase(x, y)
  {
  }

  /** Two strings lower-case alike exactly when they have the same length and agree
      position by position up to ASCII letter case. */
  lemma LowerCaseAlikeIffSameIgnoringCase(a: string, b: string)
    ensures ToLowerInvariant(a) == ToLowerInvariant(b)
        <==> |a| == |b| && forall i :: 0 <= i < |a| ==> SameIgnoringCase(a[i], b[i])
  {
    if ToLowerInvariant(a) == ToLowerInvariant(b) {
      forall i | 0 <= i < |a| ensures SameIgnoringCase(a[i], b[i]) {
        assert ToLowerInvariant(a)[i] == ToLowerInvariant(b)[i];
        ToLowerCharAlike(a[i], b[i]);
      }
    }
    if |a| == |b| && forall i :: 0 <= i < |a| ==> SameIgnoringCase(a[i], b[i]) {
      forall i | 0 <= i < |a| ensures ToLowerInvariant(a)[i] == ToLowerInvariant(b)[i] {
        ToLowerCharAlike(a[i], b[i]);
      }
    }
  }

  /** Lower-casing twice is lower-casing once. */
  lemma ToLowerInvariantIdempotent(s: string)
    ensures ToLowerInvariant(ToLowerInvariant(s)) == ToLowerInvariant(s)
  {
  }
}
