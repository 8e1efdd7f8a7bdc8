/** Character classes used by the two regular expressions of the script,
    and the longest-digit-prefix scan that both of them use. */
module Chars {

  /** `\d` restricted to ASCII digits. */
  predicate IsDigit(c: char) {
    '0' <= c <= '9'
  }

  /** `[A-Z]` in a pattern compiled without IGNORECASE. */
  predicate IsUpper(c: char) {
    'A' <= c <= 'Z'
  }

  /** `[A-Z]` in a pattern compiled with IGNORECASE, for ASCII letters. */
  predicate IsLetter(c: char) {
    IsUpper(c) || 'a' <= c <= 'z'
  }

  /** `\s` on a Python `str`: the characters for which `str.isspace()` holds. */
  predicate IsSpace(c: char) {
    || '\U{0009}' <= c <= '\U{000D}'
    || '\U{001C}' <= c <= '\U{0020}'
    || c == '\U{0085}' || c == '\U{00A0}' || c == '\U{1680}'
    || '\U{2000}' <= c <= '\U{200A}'
    || c == '\U{2028}' || c == '\U{2029}' || c == '\U{202F}'
    || c == '\U{205F}' || c == '\U{3000}'
  }

  predicate AllDigits(s: string) {
    forall i :: 0 <= i < |s| ==> IsDigit(s[i])
  }

  /** Length of the longest prefix of `s` made of digits: the only length a
      greedy `\d+` or `\d{m,n}` followed by a non-digit can settle on. */
  function DigitRun(s: string): (n: nat)
    ensures n <= |s|
    ensures AllDigits(s[..n])
    ensures n < |s| ==> !IsDigit(s[n])
  {
    if |s| > 0 && IsDigit(s[0]) then 1 + DigitRun(s[1..]) else 0
  }

  /** A digit prefix ended by a non-digit (or the end) is the digit run. */
  lemma {:induction false} DigitRunUnique(s: string, k: nat)
    requires k <= |s| && AllDigits(s[..k])
    requires k < |s| ==> !IsDigit(s[k])
    ensures DigitRun(s) == k
    decreases k
  {
    if k > 0 {
      assert s[..k][0] == s[0];
      assert s[1..][..k - 1] == s[..k][1..];
      assert k - 1 < |s[1..]| ==> s[1..][k - 1] == s[k];
      DigitRunUnique(s[1..], k - 1);
    }
  }
}
