/** The dollar-price scanner of the general scraper: `re.findall` with the
    pattern `\$\d+(?:\.\d{2})?` (web_scrapping_general.py, line 26), written out
    by hand. Matches are leftmost and non-overlapping; the digit run is greedy;
    the fraction is taken only when a `.` is followed by two digits. */
module PriceScan {
  import opened Text

  /** A `$` immediately followed by a digit: exactly where a match can start. */
  predicate DollarDigitAt(s: string, i: int) {
    0 <= i && i + 1 < |s| && s[i] == '$' && IsDigit(s[i + 1])
  }

  /** The strings the pattern `\$\d+(?:\.\d{2})?` matches in full. */
  predicate IsPriceToken(t: string) {
    && |t| >= 2
    && t[0] == '$'
    && (|| AllDigits(t[1..])
        || (&& |t| >= 5
            && AllDigits(t[1..|t| - 3])
            && t[|t| - 3] == '.'
            && IsDigit(t[|t| - 2])
            && IsDigit(t[|t| - 1])))
  }

  /** Length of the maximal run of digits starting at `p`. */
  function DigitRun(s: string, p: nat): (n: nat)
    requires p <= |s|
    ensures p + n <= |s|
    ensures forall k :: p <= k < p + n ==> IsDigit(s[k])
    ensures p + n < |s| ==> !IsDigit(s[p + n])
    decreases |s| - p
  {
    if p < |s| && IsDigit(s[p]) then 1 + DigitRun(s, p + 1) else 0
  }

  /** Length of the match the regex engine reports at index `i` (0 when the
      pattern does not match there). */
  function MatchLen(s: string, i: nat): (n: nat)
    requires i <= |s|
    ensures i + n <= |s|
    ensures n > 0 <==> DollarDigitAt(s, i)
    ensures n > 0 ==> IsPriceToken(s[i..i + n])
  {
    if DollarDigitAt(s, i) then
      var d := i + 1 + DigitRun(s, i + 1);
      var t := s[i..d];
      assert forall k :: 0 <= k < |t[1..]| ==> t[1..][k] == s[i + 1 + k];
      if d + 2 < |s| && s[d] == '.' && IsDigit(s[d + 1]) && IsDigit(s[d + 2]) then
        var u := s[i..d + 3];
        assert |u| - 3 == d - i;
        var digits := u[1..|u| - 3];
        assert forall k :: 0 <= k < |digits| ==> digits[k] == s[i + 1 + k];
        d + 3 - i
      else
        d - i
    else
      0
  }

  /** Every match the regex engine could report at `i` is no longer than the
      one `MatchLen` reports: the scanner is greedy. */
  lemma MatchLenMaximal(s: string, i: nat, e: nat)
    requires DollarDigitAt(s, i)
    requires i < e <= |s| && IsPriceToken(s[i..e])
    ensures e - i <= MatchLen(s, i)
  {
    var t := s[i..e];
    var run := DigitRun(s, i + 1);
    assert forall k :: 0 <= k < |t| ==> t[k] == s[i + k];
    if AllDigits(t[1..]) {
      assert forall k :: i + 1 <= k < e ==> IsDigit(s[k]) by {
        forall k | i + 1 <= k < e ensures IsDigit(s[k]) {
          assert t[1..][k - i - 1] == s[k];
        }
      }
      assert e <= i + 1 + run;
    } else {
      assert s[e - 3] == '.';
      assert forall k :: i + 1 <= k < e - 3 ==> IsDigit(s[k]) by {
        forall k | i + 1 <= k < e - 3 ensures IsDigit(s[k]) {
          assert t[1..|t| - 3][k - i - 1] == s[k];
        }
      }
      assert i + 1 + run >= e - 3;
      assert !IsDigit(s[e - 3]);
      assert i + 1 + run == e - 3;
      assert s[e - 2] == t[|t| - 2] && s[e - 1] == t[|t| - 1];
    }
  }

  /** `re.findall(pattern, s[i..])`, with match positions counted in `s`. */
  function FindFrom(s: string, i: nat): (r: seq<string>)
    requires i <= |s|
    ensures forall k :: 0 <= k < |r| ==> IsPriceToken(r[k]) && Contains(s, r[k])
    ensures r == [] <==> forall j :: i <= j ==> !DollarDigitAt(s, j)
    decreases |s| - i
  {
    if i == |s| then
      []
    else
      var n := MatchLen(s, i);
      if n > 0 then
        assert OccursAt(s, s[i..i + n], i);
        [s[i..i + n]] + FindFrom(s, i + n)
      else
        FindFrom(s, i + 1)
  }

  /** `re.findall(r'\$\d+(?:\.\d{2})?', s)`: every match is a price token
      occurring in `s`, and there is at least one match exactly when some `$`
      in `s` is directly followed by a digit. */
  function FindPrices(s: string): (r: seq<string>)
    ensures forall k :: 0 <= k < |r| ==> IsPriceToken(r[k]) && Contains(s, r[k])
    ensures r != [] <==> exists j :: DollarDigitAt(s, j)
  {
    FindFrom(s, 0)
  }

  /** Scanning from `i` where no match starts before `j` is scanning from `j`. */
  lemma {:induction false} SkipToFirst(s: string, i: nat, j: nat)
    requires i <= j <= |s|
    requires forall k :: i <= k < j ==> !DollarDigitAt(s, k)
    ensures FindFrom(s, i) == FindFrom(s, j)
    decreases j - i
  {
    if i < j {
      assert MatchLen(s, i) == 0;
      SkipToFirst(s, i + 1, j);
    }
  }

  /** The whole list, one match at a time: scanning from `i` reports the
      longest match at the leftmost `$`-digit position `j` at or after `i`, then
      resumes right after that match, so matches never overlap and come in
      order. With no such position the list is empty (the ensures of
      `FindFrom`). */
  lemma FindFromStep(s: string, i: nat, j: nat)
    requires i <= j <= |s| && DollarDigitAt(s, j)
    requires forall k :: i <= k < j ==> !DollarDigitAt(s, k)
    ensures j + MatchLen(s, j) <= |s|
    ensures FindFrom(s, i) == [s[j..j + MatchLen(s, j)]] + FindFrom(s, j + MatchLen(s, j))
  {
    SkipToFirst(s, i, j);
  }

  /** The first price found is the longest price token starting at the leftmost
      position where a `$` is followed by a digit. */
  lemma FirstPriceLeftmostLongest(s: string, j: nat)
    requires DollarDigitAt(s, j)
    requires forall k :: 0 <= k < j ==> !DollarDigitAt(s, k)
    ensures |FindPrices(s)| > 0 && OccursAt(s, FindPrices(s)[0], j)
    ensures forall e :: j < e <= |s| && IsPriceToken(s[j..e]) ==> e - j <= |FindPrices(s)[0]|
  {
    SkipToFirst(s, 0, j);
    var n := MatchLen(s, j);
    assert FindPrices(s)[0] == s[j..j + n];
    forall e | j < e <= |s| && IsPriceToken(s[j..e])
      ensures e - j <= |FindPrices(s)[0]|
    {
      MatchLenMaximal(s, j, e);
    }
  }

  /** The amount of a price token in cents: `float(t.replace("$", ""))` times
      100, exact because the token has at most two decimals. */
  function PriceCents(t: string): (c: nat)
    requires IsPriceToken(t)
  {
    if AllDigits(t[1..]) then DecimalValue(t[1..]) * 100
    else DecimalValue(t[1..|t| - 3]) * 100 + DecimalValue(t[|t| - 2..])
  }
}
