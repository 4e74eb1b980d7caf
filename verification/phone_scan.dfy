/** The phone pattern of the general scraper's contact pass,
    `(?:\+\d{1,2}\s)?\(?\d{3}\)?[\s.-]?\d{3}[\s.-]?\d{4}`, used with `re.search`
    (web_scrapping_general.py, lines 187 and 191). Each function below matches
    one suffix of the pattern at a position and returns where the first
    successful match ends, trying the alternatives in the order Python's
    backtracking engine does: an optional piece is first taken, then skipped,
    and `\d{1,2}` first takes two digits, then one. */
module PhoneScan {
  import opened Wrappers
  import opened Text

  /** The class `[\s.-]`. */
  predicate IsSeparator(c: char) {
    IsSpace(c) || c == '.' || c == '-'
  }

  /** `n` digits start at index `i`. */
  predicate DigitsAt(s: string, i: nat, n: nat) {
    i + n <= |s| && AllDigits(s[i..i + n])
  }

  /** A match end `e` for a piece matched at `i` whose length lies in
      [lo, hi] and whose last four characters are digits. */
  predicate Ends(s: string, i: nat, e: Option<nat>, lo: nat, hi: nat) {
    e.Some? ==> i + lo <= e.value <= i + hi && e.value <= |s| && e.value >= 4 && DigitsAt(s, e.value - 4, 4)
  }

  /** The strings each piece of the pattern matches, defined on the matched
      text alone: what the pattern accepts, independent of how the functions
      below search for it. `\d{4}`: */
  predicate IsLineNumber(t: string) {
    |t| == 4 && AllDigits(t)
  }

  /** `[\s.-]?\d{4}` */
  predicate IsSecondPart(t: string) {
    IsLineNumber(t) || (|t| > 0 && IsSeparator(t[0]) && IsLineNumber(t[1..]))
  }

  /** `\d{3}[\s.-]?\d{4}` */
  predicate IsExchangePart(t: string) {
    |t| >= 3 && AllDigits(t[..3]) && IsSecondPart(t[3..])
  }

  /** `[\s.-]?\d{3}[\s.-]?\d{4}` */
  predicate IsFirstPart(t: string) {
    IsExchangePart(t) || (|t| > 0 && IsSeparator(t[0]) && IsExchangePart(t[1..]))
  }

  /** `\)?[\s.-]?\d{3}[\s.-]?\d{4}` */
  predicate IsClosePart(t: string) {
    IsFirstPart(t) || (|t| > 0 && t[0] == ')' && IsFirstPart(t[1..]))
  }

  /** `\d{3}\)?[\s.-]?\d{3}[\s.-]?\d{4}` */
  predicate IsAreaPart(t: string) {
    |t| >= 3 && AllDigits(t[..3]) && IsClosePart(t[3..])
  }

  /** `\(?\d{3}\)?[\s.-]?\d{3}[\s.-]?\d{4}`: the number without a country code. */
  predicate IsLocalPart(t: string) {
    IsAreaPart(t) || (|t| > 0 && t[0] == '(' && IsAreaPart(t[1..]))
  }

  /** `\+\d{1,2}\s`: a plus sign, one or two digits and a whitespace character. */
  predicate IsCountryCode(t: string) {
    && (|t| == 3 || |t| == 4) && t[0] == '+' && IsSpace(t[|t| - 1])
    && forall k :: 1 <= k < |t| - 1 ==> IsDigit(t[k])
  }

  /** The whole pattern: an optional country code, then the local number. */
  predicate IsPhoneMatch(t: string) {
    IsLocalPart(t)
    || (|t| >= 3 && IsCountryCode(t[..3]) && IsLocalPart(t[3..]))
    || (|t| >= 4 && IsCountryCode(t[..4]) && IsLocalPart(t[4..]))
  }

  /** Slices of a slice are slices of the text. */
  lemma Slices(s: string, i: nat, k: nat, e: nat)
    requires i + k <= e <= |s|
    ensures s[i..e][..k] == s[i..i + k] && s[i..e][k..] == s[i + k..e]
  {
  }

  lemma Subslice(s: string, i: nat, e: nat, a: nat, b: nat)
    requires i <= e <= |s| && a <= b <= e - i
    ensures s[i..e][a..b] == s[i + a..i + b]
  {
    var d, t := s[i..e][a..b], s[i + a..i + b];
    assert |d| == |t| && forall k :: 0 <= k < |d| ==> d[k] == t[k];
  }

  /** A country code of `k - 2` digits at `i`, then a local number up to `e`,
      make a whole match. */
  lemma CodedMatch(s: string, i: nat, k: nat, e: nat)
    requires 3 <= k <= 4 && i + k <= e <= |s|
    requires s[i] == '+' && DigitsAt(s, i + 1, k - 2) && IsSpace(s[i + k - 1])
    requires IsLocalPart(s[i + k..e])
    ensures IsPhoneMatch(s[i..e])
  {
    Slices(s, i, k, e);
    var c := s[i..i + k];
    forall q | 1 <= q < k - 1
      ensures IsDigit(c[q])
    {
      assert c[q] == s[i + 1..i + k - 1][q - 1];
    }
    assert IsCountryCode(c);
  }

  /** `\d{4}` */
  function LineNumber(s: string, i: nat): (e: Option<nat>)
    ensures Ends(s, i, e, 4, 4)
    ensures e.Some? ==> IsLineNumber(s[i..e.value])
  {
    if DigitsAt(s, i, 4) then Some(i + 4) else None
  }

  /** `[\s.-]?\d{4}` */
  function SecondSeparator(s: string, i: nat): (e: Option<nat>)
    ensures Ends(s, i, e, 4, 5)
    ensures e.Some? ==> IsSecondPart(s[i..e.value])
  {
    if i < |s| && IsSeparator(s[i]) && LineNumber(s, i + 1).Some? then
      var m := LineNumber(s, i + 1);
      assert s[i..m.value][1..] == s[i + 1..m.value];
      m
    else LineNumber(s, i)
  }

  /** `\d{3}[\s.-]?\d{4}` */
  function Exchange(s: string, i: nat): (e: Option<nat>)
    ensures Ends(s, i, e, 7, 8)
    ensures e.Some? ==> IsExchangePart(s[i..e.value])
  {
    if DigitsAt(s, i, 3) then
      var m := SecondSeparator(s, i + 3);
      assert m.Some? ==> s[i..m.value][..3] == s[i..i + 3] && s[i..m.value][3..] == s[i + 3..m.value];
      m
    else None
  }

  /** `[\s.-]?\d{3}[\s.-]?\d{4}` */
  function FirstSeparator(s: string, i: nat): (e: Option<nat>)
    ensures Ends(s, i, e, 7, 9)
    ensures e.Some? ==> IsFirstPart(s[i..e.value])
  {
    if i < |s| && IsSeparator(s[i]) && Exchange(s, i + 1).Some? then
      var m := Exchange(s, i + 1);
      assert s[i..m.value][1..] == s[i + 1..m.value];
      m
    else Exchange(s, i)
  }

  /** `\)?[\s.-]?\d{3}[\s.-]?\d{4}` */
  function CloseParen(s: string, i: nat): (e: Option<nat>)
    ensures Ends(s, i, e, 7, 10)
    ensures e.Some? ==> IsClosePart(s[i..e.value])
  {
    if i < |s| && s[i] == ')' && FirstSeparator(s, i + 1).Some? then
      var m := FirstSeparator(s, i + 1);
      assert s[i..m.value][1..] == s[i + 1..m.value];
      m
    else FirstSeparator(s, i)
  }

  /** `\d{3}\)?[\s.-]?\d{3}[\s.-]?\d{4}` */
  function AreaCode(s: string, i: nat): (e: Option<nat>)
    ensures Ends(s, i, e, 10, 13)
    ensures e.Some? ==> IsAreaPart(s[i..e.value])
  {
    if DigitsAt(s, i, 3) then
      var m := CloseParen(s, i + 3);
      assert m.Some? ==> s[i..m.value][..3] == s[i..i + 3] && s[i..m.value][3..] == s[i + 3..m.value];
      m
    else None
  }

  /** `\(?\d{3}\)?[\s.-]?\d{3}[\s.-]?\d{4}` */
  function OpenParen(s: string, i: nat): (e: Option<nat>)
    ensures Ends(s, i, e, 10, 14)
    ensures e.Some? ==> IsLocalPart(s[i..e.value])
  {
    if i < |s| && s[i] == '(' && AreaCode(s, i + 1).Some? then
      var m := AreaCode(s, i + 1);
      assert s[i..m.value][1..] == s[i + 1..m.value];
      m
    else AreaCode(s, i)
  }

  /** The whole pattern at index `i`: the optional `\+\d{1,2}\s` prefix first. */
  function PhoneAt(s: string, i: nat): (e: Option<nat>)
    ensures Ends(s, i, e, 10, 18)
  {
    if i + 3 < |s| && s[i] == '+' && DigitsAt(s, i + 1, 2) && IsSpace(s[i + 3])
       && OpenParen(s, i + 4).Some? then
      OpenParen(s, i + 4)
    else if i + 2 < |s| && s[i] == '+' && DigitsAt(s, i + 1, 1) && IsSpace(s[i + 2])
       && OpenParen(s, i + 3).Some? then
      OpenParen(s, i + 3)
    else
      OpenParen(s, i)
  }

  /** Soundness of `PhoneAt`: the text it matches is in the language of the
      whole pattern. */
  lemma PhoneAtSound(s: string, i: nat)
    ensures PhoneAt(s, i).Some? ==> IsPhoneMatch(s[i..PhoneAt(s, i).value])
  {
    if i + 3 < |s| && s[i] == '+' && DigitsAt(s, i + 1, 2) && IsSpace(s[i + 3])
       && OpenParen(s, i + 4).Some? {
      CodedMatch(s, i, 4, OpenParen(s, i + 4).value);
    } else if i + 2 < |s| && s[i] == '+' && DigitsAt(s, i + 1, 1) && IsSpace(s[i + 2])
       && OpenParen(s, i + 3).Some? {
      CodedMatch(s, i, 3, OpenParen(s, i + 3).value);
    }
  }

  /** The leftmost position at or after `i` where the pattern matches. */
  function SearchFrom(s: string, i: nat): (r: Option<nat>)
    requires i <= |s|
    ensures r.Some? ==> i <= r.value <= |s| && PhoneAt(s, r.value).Some?
    ensures r.Some? ==> forall j :: i <= j < r.value ==> PhoneAt(s, j).None?
    ensures r.None? ==> forall j :: i <= j <= |s| ==> PhoneAt(s, j).None?
    decreases |s| - i
  {
    if PhoneAt(s, i).Some? then Some(i)
    else if i == |s| then None
    else SearchFrom(s, i + 1)
  }

  /** Completeness of each piece: when some text starting at `i` is in the
      piece's language, the piece's function finds a match at `i` (not
      necessarily ending at the same place: the engine keeps the first way it
      finds). */
  lemma LineNumberComplete(s: string, i: nat, j: nat)
    requires i <= j <= |s| && IsLineNumber(s[i..j])
    ensures LineNumber(s, i).Some?
  {
    assert s[i..i + 4] == s[i..j];
  }

  lemma SecondSeparatorComplete(s: string, i: nat, j: nat)
    requires i <= j <= |s| && IsSecondPart(s[i..j])
    ensures SecondSeparator(s, i).Some?
  {
    if IsLineNumber(s[i..j]) {
      LineNumberComplete(s, i, j);
    } else {
      Slices(s, i, 1, j);
      LineNumberComplete(s, i + 1, j);
    }
  }

  lemma ExchangeComplete(s: string, i: nat, j: nat)
    requires i <= j <= |s| && IsExchangePart(s[i..j])
    ensures Exchange(s, i).Some?
  {
    Slices(s, i, 3, j);
    SecondSeparatorComplete(s, i + 3, j);
  }

  lemma FirstSeparatorComplete(s: string, i: nat, j: nat)
    requires i <= j <= |s| && IsFirstPart(s[i..j])
    ensures FirstSeparator(s, i).Some?
  {
    if IsExchangePart(s[i..j]) {
      ExchangeComplete(s, i, j);
    } else {
      Slices(s, i, 1, j);
      ExchangeComplete(s, i + 1, j);
    }
  }

  lemma CloseParenComplete(s: string, i: nat, j: nat)
    requires i <= j <= |s| && IsClosePart(s[i..j])
    ensures CloseParen(s, i).Some?
  {
    if IsFirstPart(s[i..j]) {
      FirstSeparatorComplete(s, i, j);
    } else {
      Slices(s, i, 1, j);
      FirstSeparatorComplete(s, i + 1, j);
    }
  }

  lemma AreaCodeComplete(s: string, i: nat, j: nat)
    requires i <= j <= |s| && IsAreaPart(s[i..j])
    ensures AreaCode(s, i).Some?
  {
    Slices(s, i, 3, j);
    CloseParenComplete(s, i + 3, j);
  }

  lemma OpenParenComplete(s: string, i: nat, j: nat)
    requires i <= j <= |s| && IsLocalPart(s[i..j])
    ensures OpenParen(s, i).Some?
  {
    if IsAreaPart(s[i..j]) {
      AreaCodeComplete(s, i, j);
    } else {
      Slices(s, i, 1, j);
      AreaCodeComplete(s, i + 1, j);
    }
  }

  /** A match with a country code of `k - 2` digits, read back off the text. */
  lemma CodedParts(s: string, i: nat, j: nat, k: nat)
    requires 3 <= k <= 4 && i + k <= j <= |s|
    requires IsCountryCode(s[i..j][..k]) && IsLocalPart(s[i..j][k..])
    ensures s[i] == '+' && DigitsAt(s, i + 1, k - 2) && IsSpace(s[i + k - 1])
    ensures IsLocalPart(s[i + k..j])
  {
    Slices(s, i, k, j);
    Subslice(s, i, i + k, 1, k - 1);
  }

  /** The pattern matches at `i` exactly when some text starting at `i` is
      in its language: with `PhoneAt`'s own ensures, the matcher neither
      misses a match nor invents one. */
  lemma PhoneAtComplete(s: string, i: nat, j: nat)
    requires i <= j <= |s| && IsPhoneMatch(s[i..j])
    ensures PhoneAt(s, i).Some?
  {
    var t := s[i..j];
    if IsLocalPart(t) {
      OpenParenComplete(s, i, j);
    } else {
      var k := if |t| >= 3 && IsCountryCode(t[..3]) && IsLocalPart(t[3..]) then 3 else 4;
      CodedParts(s, i, j, k);
      OpenParenComplete(s, i + k, j);
    }
  }

  /** No match at `i` exactly when no text starting at `i` is a phone number. */
  lemma PhoneAtNone(s: string, i: nat)
    requires i <= |s|
    ensures PhoneAt(s, i).None? <==> forall j :: i <= j <= |s| ==> !IsPhoneMatch(s[i..j])
  {
    if PhoneAt(s, i).Some? {
      PhoneAtSound(s, i);
    } else {
      forall j | i <= j <= |s| ensures !IsPhoneMatch(s[i..j]) {
        if IsPhoneMatch(s[i..j]) {
          PhoneAtComplete(s, i, j);
        }
      }
    }
  }

  /** `re.search` finds nothing exactly when no part of the text is a phone
      number. */
  lemma SearchPhoneNone(s: string)
    ensures SearchPhone(s).None? <==> forall i, j :: 0 <= i <= j <= |s| ==> !IsPhoneMatch(s[i..j])
  {
    if SearchPhone(s).None? {
      forall i, j | 0 <= i <= j <= |s| ensures !IsPhoneMatch(s[i..j]) {
        PhoneAtNone(s, i);
      }
    } else {
      var i := SearchFrom(s, 0).value;
      PhoneAtSound(s, i);
    }
  }

  /** `re.search(phone_regex, text)`, returning `match.group(0)`: the match
      at the first position where the pattern matches; it is 10 to 18
      characters long and ends in four digits. No match exactly when the
      pattern matches nowhere. */
  function SearchPhone(s: string): (r: Option<string>)
    ensures r.Some? ==> 10 <= |r.value| <= 18 && AllDigits(r.value[|r.value| - 4..])
    ensures r.Some? ==> IsPhoneMatch(r.value)
    ensures r.Some? ==> exists j :: OccursAt(s, r.value, j) && forall k :: 0 <= k < j ==> PhoneAt(s, k).None?
    ensures r.None? <==> forall j :: 0 <= j <= |s| ==> PhoneAt(s, j).None?
  {
    var start := SearchFrom(s, 0);
    if start.Some? then
      var j := start.value;
      var e := PhoneAt(s, j).value;
      var m := s[j..e];
      PhoneAtSound(s, j);
      assert m[|m| - 4..] == s[e - 4..e];
      assert OccursAt(s, m, j);
      Some(m)
    else
      None
  }
}
