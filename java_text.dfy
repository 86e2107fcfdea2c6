/**
 * The behaviour of the java.lang.String operations and string utilities that the modelled
 * code calls: indexOf, trim, equalsIgnoreCase, the "has text" test and decimal printing.
 */
module JavaText {
  import opened Wrappers

  /** `s` holds `pat` starting at index `k`. */
  predicate Occurs(s: string, pat: string, k: int) {
    0 <= k && k + |pat| <= |s| && s[k..k + |pat|] == pat
  }

  /** `pat` occurs nowhere in `s`. */
  ghost predicate Absent(s: string, pat: string) {
    forall k :: !Occurs(s, pat, k)
  }

  /**
   * indexOf(pat, from) for 0 <= from <= |s|: the first index at or after `from` where `pat`
   * starts, or -1 when there is none.
   */
  function IndexOf(s: string, pat: string, from: nat): (r: int)
    requires from <= |s|
    ensures r == -1 || (from <= r && Occurs(s, pat, r))
    ensures forall k :: from <= k && (r == -1 || k < r) ==> !Occurs(s, pat, k)
    decreases |s| - from
  {
    if from + |pat| > |s| then -1
    else if s[from..from + |pat|] == pat then from
    else IndexOf(s, pat, from + 1)
  }

  /** String.trim removes every character whose code is at most that of the space. */
  predicate IsTrimmed(c: char) {
    c <= ' '
  }

  /** The first index at or after `i` whose character is not trimmed, or |s|. */
  function LeadingEnd(s: string, i: nat): (n: nat)
    requires i <= |s|
    ensures i <= n <= |s|
    ensures forall k :: i <= k < n ==> IsTrimmed(s[k])
    ensures n < |s| ==> !IsTrimmed(s[n])
    decreases |s| - i
  {
    if i < |s| && IsTrimmed(s[i]) then LeadingEnd(s, i + 1) else i
  }

  /** The end of `s[lo..j]` once trimmed characters are dropped from its right end. */
  function TrailingStart(s: string, lo: nat, j: nat): (n: nat)
    requires lo <= j <= |s|
    ensures lo <= n <= j
    ensures forall k :: n <= k < j ==> IsTrimmed(s[k])
    ensures n > lo ==> !IsTrimmed(s[n - 1])
    decreases j
  {
    if j > lo && IsTrimmed(s[j - 1]) then TrailingStart(s, lo, j - 1) else j
  }

  /**
   * `r` is `s` with the first `i` characters and some last characters removed, and every
   * removed character is trimmed.
   */
  ghost predicate TrimmedAround(s: string, r: string, i: int) {
    0 <= i <= |s| - |r| && r == s[i..i + |r|]
    && (forall k :: 0 <= k < i ==> IsTrimmed(s[k]))
    && (forall k :: i + |r| <= k < |s| ==> IsTrimmed(s[k]))
  }

  /**
   * String.trim: the middle part of `s` that neither starts nor ends with a trimmed character;
   * empty exactly when every character of `s` is trimmed.
   */
  function Trim(s: string): (r: string)
    ensures exists i :: TrimmedAround(s, r, i)
    ensures r != [] ==> !IsTrimmed(r[0]) && !IsTrimmed(r[|r| - 1])
    ensures r == [] <==> forall k :: 0 <= k < |s| ==> IsTrimmed(s[k])
  {
    var b := LeadingEnd(s, 0);
    var e := TrailingStart(s, b, |s|);
    assert TrimmedAround(s, s[b..e], b);
    s[b..e]
  }

  /** A string that neither starts nor ends with a trimmed character is its own trim. */
  lemma TrimKeepsUntrimmed(s: string)
    requires s != [] ==> !IsTrimmed(s[0]) && !IsTrimmed(s[|s| - 1])
    ensures Trim(s) == s
  {
    assert LeadingEnd(s, 0) == 0;
    assert TrailingStart(s, 0, |s|) == |s|;
    assert s[0..|s|] == s;
  }

  /** ASCII case folding; equalsIgnoreCase compares characters after folding. */
  function ToLowerAscii(c: char): char {
    if 'A' <= c <= 'Z' then (c as int + 32) as char else c
  }

  /** No character of `s` is an upper-case ASCII letter. */
  predicate NoUpperAscii(s: string) {
    forall i :: 0 <= i < |s| ==> !('A' <= s[i] <= 'Z')
  }

  /**
   * equalsIgnoreCase, restricted to ASCII case folding: equal strings match, matching strings
   * have the same length, and between strings without upper-case letters it is plain equality.
   */
  function EqualsIgnoreCase(a: string, b: string): (r: bool)
    ensures a == b ==> r
    ensures r ==> |a| == |b|
    ensures NoUpperAscii(a) && NoUpperAscii(b) ==> (r <==> a == b)
  {
    |a| == |b| && forall i :: 0 <= i < |a| ==> ToLowerAscii(a[i]) == ToLowerAscii(b[i])
  }

  /** Character.isWhitespace on the ASCII range: space, tab to carriage return, FS to US. */
  predicate IsWhitespace(c: char) {
    c == ' ' || 9 <= c as int <= 13 || 28 <= c as int <= 31
  }

  /** Some character of `s` is not whitespace. */
  function ContainsText(s: string): (r: bool)
    ensures r <==> exists i :: 0 <= i < |s| && !IsWhitespace(s[i])
  {
    s != [] && (!IsWhitespace(s[0]) || ContainsText(s[1..]))
  }

  /**
   * The "has text" / "is not blank" test: the string is not null and holds a character that is
   * not whitespace.
   */
  function HasText(s: Option<string>): (r: bool)
    ensures r ==> s.Some? && |s.value| > 0
    ensures r <==> s.Some? && exists i :: 0 <= i < |s.value| && !IsWhitespace(s.value[i])
  {
    s.Some? && ContainsText(s.value)
  }

  /** The number a string of decimal digits denotes, most significant digit first. */
  function DigitsValue(s: string): int
    decreases |s|
  {
    if s == [] then 0 else 10 * DigitsValue(s[..|s| - 1]) + (s[|s| - 1] as int - '0' as int)
  }

  /**
   * Decimal notation of a non-negative integer, as string concatenation prints it: digits only,
   * no leading zero, one digit exactly below ten, and denoting `n` back.
   */
  function Decimal(n: nat): (r: string)
    ensures r != [] && forall i :: 0 <= i < |r| ==> '0' <= r[i] <= '9'
    ensures r[0] == '0' ==> n == 0
    ensures |r| == 1 <==> n < 10
    ensures DigitsValue(r) == n
  {
    if n < 10 then [('0' as int + n) as char]
    else
      var r := Decimal(n / 10) + [('0' as int + n % 10) as char];
      assert r[..|r| - 1] == Decimal(n / 10);
      r
  }
}
