/** The DOI classifier: `^10\.\d{4,9}/[-._;()/:A-Z0-9]+$`, case-insensitive,
    written as a left-to-right scan, with the regular expression's own shape
    as an independent reference. */
module Doi {
  import opened Chars

  /** A character of the DOI suffix class `[-._;()/:A-Z0-9]` under IGNORECASE. */
  predicate IsSuffixChar(c: char) {
    IsLetter(c) || IsDigit(c) || c in "-._;()/:"
  }

  predicate AllSuffix(s: string) {
    forall i :: 0 <= i < |s| ==> IsSuffixChar(s[i])
  }

  /** The scan: `10.`, then the digit run, which must have 4 to 9 digits and be
      followed by `/`, then a non-empty suffix running to the end of `s`. */
  predicate ScanBody(s: string) {
    && |s| >= 3
    && s[..3] == "10."
    && var n := DigitRun(s[3..]);
       && 4 <= n <= 9
       && 3 + n + 1 < |s|
       && s[3 + n] == '/'
       && AllSuffix(s[3 + n + 1..])
  }

  /** `is_doi`: `$` matches at the end of the string or just before a final
      newline, so one trailing `"\n"` is accepted after the body. */
  predicate IsDoi(s: string) {
    || ScanBody(s)
    || (|s| > 0 && s[|s| - 1] == '\n' && ScanBody(s[..|s| - 1]))
  }

  /** The pattern's shape, with the position `k` of the `/` chosen freely. */
  ghost predicate BodyShape(s: string) {
    exists k :: 7 <= k <= 12 && k + 1 < |s| && s[..3] == "10." && AllDigits(s[3..k])
                && s[k] == '/' && AllSuffix(s[k + 1..])
  }

  ghost predicate DoiShape(s: string) {
    BodyShape(s) || (|s| > 0 && s[|s| - 1] == '\n' && BodyShape(s[..|s| - 1]))
  }

  /** The scan accepts exactly the strings of the pattern's shape. */
  lemma ScanBodyIffShape(s: string)
    ensures ScanBody(s) <==> BodyShape(s)
  {
    if ScanBody(s) {
      var n := DigitRun(s[3..]);
      assert s[3..][..n] == s[3..3 + n];
      var k := 3 + n;
      assert 7 <= k <= 12 && k + 1 < |s| && s[..3] == "10." && AllDigits(s[3..k])
             && s[k] == '/' && AllSuffix(s[k + 1..]);
    }
    if BodyShape(s) {
      var k :| 7 <= k <= 12 && k + 1 < |s| && s[..3] == "10." && AllDigits(s[3..k])
               && s[k] == '/' && AllSuffix(s[k + 1..]);
      var t := s[3..];
      assert t[..k - 3] == s[3..k];
      assert t[k - 3] == s[k];
      DigitRunUnique(t, k - 3);
    }
  }

  /** `is_doi(s)` holds exactly when `s` has the pattern's shape. */
  lemma IsDoiIffShape(s: string)
    ensures IsDoi(s) <==> DoiShape(s)
  {
    ScanBodyIffShape(s);
    if |s| > 0 {
      ScanBodyIffShape(s[..|s| - 1]);
    }
  }

  /** Every DOI starts with `10.`; so a URL such as `https://…` never is one. */
  lemma DoiStartsWithPrefix(s: string)
    requires IsDoi(s)
    ensures |s| >= 3 && s[..3] == "10."
  {
    if !ScanBody(s) {
      assert s[..|s| - 1][..3] == s[..3];
    }
  }

  /** ASCII upper-casing, the case folding IGNORECASE applies. */
  function UpperChar(c: char): char {
    if 'a' <= c <= 'z' then (c as int - 32) as char else c
  }

  function Upper(s: string): (r: string)
    ensures |r| == |s|
    ensures forall i :: 0 <= i < |s| ==> r[i] == UpperChar(s[i])
  {
    seq(|s|, i requires 0 <= i < |s| => UpperChar(s[i]))
  }

  lemma UpperSlice(s: string, a: nat, b: nat)
    requires a <= b <= |s|
    ensures Upper(s)[a..b] == Upper(s[a..b])
  {
  }

  lemma DigitRunUpper(s: string)
    ensures DigitRun(Upper(s)) == DigitRun(s)
  {
    var n := DigitRun(s);
    UpperSlice(s, 0, n);
    DigitRunUnique(Upper(s), n);
  }

  lemma AllSuffixUpper(t: string)
    ensures AllSuffix(Upper(t)) <==> AllSuffix(t)
  {
    assert forall i :: 0 <= i < |t| ==> (IsSuffixChar(UpperChar(t[i])) <==> IsSuffixChar(t[i]));
  }

  lemma ScanBodyUpper(s: string)
    ensures ScanBody(Upper(s)) <==> ScanBody(s)
  {
    if |s| >= 3 {
      var u := Upper(s);
      UpperSlice(s, 0, 3);
      assert u[..3] == "10." <==> s[..3] == "10.";
      UpperSlice(s, 3, |s|);
      DigitRunUpper(s[3..]);
      var n := DigitRun(s[3..]);
      assert DigitRun(u[3..]) == n;
      if 3 + n + 1 < |s| {
        UpperSlice(s, 3 + n + 1, |s|);
        AllSuffixUpper(s[3 + n + 1..]);
        assert u[3 + n] == '/' <==> s[3 + n] == '/';
      }
    }
  }

  /** The classification ignores ASCII case. */
  lemma {:induction false} IsDoiIgnoresCase(s: string)
    ensures IsDoi(Upper(s)) <==> IsDoi(s)
  {
    ScanBodyUpper(s);
    if |s| > 0 {
      UpperSlice(s, 0, |s| - 1);
      ScanBodyUpper(s[..|s| - 1]);
    }
  }
}
