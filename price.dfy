/** Truncating a quoted price to two decimals with the pattern `^\d.+\.\d{2}` and
    Go's FindString. Go's `\d` is an ASCII digit and `.` matches any character but a
    newline. FindString returns the leftmost-first match, and since the greedy `.+`
    takes as much as it can, that match is the longest prefix the pattern matches,
    or "" when there is none. */
module Price {

  predicate IsDigit(c: char)
  {
    '0' <= c <= '9'
  }

  /** `s[..n]` is matched by `^\d.{m,}\.\d{2}` with m = `minMiddle`: a digit, at least
      `minMiddle` characters other than a newline, a '.', then two digits. */
  predicate MatchesPrefix(s: string, n: nat, minMiddle: nat)
  {
    && 4 + minMiddle <= n <= |s|
    && IsDigit(s[0])
    && (forall i :: 1 <= i < n - 3 ==> s[i] != '\n')
    && s[n - 3] == '.'
    && IsDigit(s[n - 2])
    && IsDigit(s[n - 1])
  }

  /** The greatest length not above `n` whose prefix matches, or 0. */
  function LongestMatch(s: string, n: nat, minMiddle: nat): (m: nat)
    requires n <= |s|
    ensures m <= n
    ensures m == 0 || MatchesPrefix(s, m, minMiddle)
    ensures forall j :: m < j <= n ==> !MatchesPrefix(s, j, minMiddle)
    decreases n
  {
    if n < 4 + minMiddle then 0
    else if MatchesPrefix(s, n, minMiddle) then n
    else LongestMatch(s, n - 1, minMiddle)
  }

  /** The leftmost-first match of `^\d.{m,}\.\d{2}` in `s`, or "" when there is none. */
  function FindPrefix(s: string, minMiddle: nat): (r: string)
    ensures r <= s
    ensures r == "" <==> forall n: nat :: !MatchesPrefix(s, n, minMiddle)
    ensures r != "" ==> MatchesPrefix(s, |r|, minMiddle)
    ensures forall n: nat :: MatchesPrefix(s, n, minMiddle) ==> n <= |r|
  {
    var m := LongestMatch(s, |s|, minMiddle);
    s[..m]
  }

  /** The price string kept by the ticker: `FindString` with `^\d.+\.\d{2}`. */
  function Truncate(price: string): (r: string)
    ensures r == "" || r <= price
    ensures r != "" ==> |r| >= 5 && IsDigit(r[0])
    ensures r != "" ==> r[|r| - 3] == '.' && IsDigit(r[|r| - 2]) && IsDigit(r[|r| - 1])
    ensures r != "" ==> forall i :: 1 <= i < |r| - 3 ==> r[i] != '\n'
    ensures r == "" <==> forall n: nat :: !MatchesPrefix(price, n, 1)
    ensures forall n: nat :: MatchesPrefix(price, n, 1) ==> n <= |r|
  {
    FindPrefix(price, 1)
  }

  /** Truncating an already truncated price changes nothing. */
  lemma TruncateIdempotent(price: string)
    ensures Truncate(Truncate(price)) == Truncate(price)
  {
  }

  /** Nothing past a newline that follows the first character can be kept. */
  lemma NewlineBounds(price: string, i: nat)
    requires 1 <= i < |price| && price[i] == '\n'
    ensures |Truncate(price)| <= i + 3
  {
  }

  /** "12.345" keeps "12.34". */
  lemma TruncateExample()
    ensures Truncate("12.345") == "12.34"
  {
    var s := "12.345";
    assert MatchesPrefix(s, 5, 1);
    assert !MatchesPrefix(s, 6, 1);
    var r := Truncate(s);
    assert |r| == 5;
    assert r == s[..5];
  }

  /** A price with a one-digit integer part is dropped entirely: the pattern wants at
      least one character between the first digit and the '.'. */
  lemma ShortPriceDropped(whole: char, fraction: string)
    requires IsDigit(whole)
    requires forall i :: 0 <= i < |fraction| ==> IsDigit(fraction[i])
    ensures Truncate([whole, '.'] + fraction) == ""
  {
  }

  /** The same truncation with `^\d.*\.\d{2}`, the pattern that keeps two decimals of
      every price. */
  function TruncateFixed(price: string): (r: string)
    ensures r == "" || r <= price
    ensures r != "" ==> |r| >= 4 && IsDigit(r[0])
    ensures r != "" ==> r[|r| - 3] == '.' && IsDigit(r[|r| - 2]) && IsDigit(r[|r| - 1])
    ensures r == "" <==> forall n: nat :: !MatchesPrefix(price, n, 0)
    ensures forall n: nat :: MatchesPrefix(price, n, 0) ==> n <= |r|
  {
    FindPrefix(price, 0)
  }

  predicate AllDigits(s: string)
  {
    forall i :: 0 <= i < |s| ==> IsDigit(s[i])
  }

  /** A decimal price with at least two decimals, whose integer part is long enough
      for the pattern, keeps its integer part and exactly its first two decimals. */
  lemma FindKeepsTwoDecimals(whole: string, fraction: string, minMiddle: nat)
    requires |whole| >= 1 + minMiddle && AllDigits(whole)
    requires |fraction| >= 2 && AllDigits(fraction)
    ensures FindPrefix(whole + "." + fraction, minMiddle) == whole + "." + fraction[..2]
  {
    var s := whole + "." + fraction;
    var n0 := |whole| + 3;
    assert s[|whole|] == '.';
    assert s[0] == whole[0];
    assert s[n0 - 2] == fraction[0] && s[n0 - 1] == fraction[1];
    assert forall i :: 1 <= i < n0 - 3 ==> s[i] == whole[i];
    assert MatchesPrefix(s, n0, minMiddle);
    forall n: nat | n0 < n <= |s| ensures !MatchesPrefix(s, n, minMiddle) {
      assert s[n - 3] == fraction[n - 3 - |whole| - 1];
    }
    var r := FindPrefix(s, minMiddle);
    assert |r| == n0;
    assert r == s[..n0];
    assert s[..n0] == whole + "." + fraction[..2];
  }

  /** With the corrected pattern every decimal price with at least two decimals keeps
      its integer part and exactly its first two decimals. */
  lemma FixedKeepsTwoDecimals(whole: string, fraction: string)
    requires |whole| >= 1 && AllDigits(whole)
    requires |fraction| >= 2 && AllDigits(fraction)
    ensures TruncateFixed(whole + "." + fraction) == whole + "." + fraction[..2]
  {
    FindKeepsTwoDecimals(whole, fraction, 0);
  }

  /** The pattern as written does so only when the integer part has at least two digits. */
  lemma TruncateKeepsTwoDecimals(whole: string, fraction: string)
    requires |whole| >= 2 && AllDigits(whole)
    requires |fraction| >= 2 && AllDigits(fraction)
    ensures Truncate(whole + "." + fraction) == whole + "." + fraction[..2]
  {
    FindKeepsTwoDecimals(whole, fraction, 1);
  }

  /** "1.50": dropped by the pattern as written, kept by the corrected one. */
  lemma ShortPriceExample()
    ensures Truncate("1.50") == ""
    ensures TruncateFixed("1.50") == "1.50"
  {
  }
}
