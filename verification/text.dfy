/** The Python string primitives the scrapers rely on: `str.isspace`/`str.strip`,
    ASCII `str.lower`, the `in` substring test, `str.replace(old, '')`,
    `str.startswith`, `sep.join(...)` and decimal rendering of integers. */
module Text {

  /** Python's `str.isspace`, which is also what `str.strip()` removes and what
      the regular-expression class `\s` matches in a `str` pattern. */
  predicate IsSpace(c: char) {
    || ('\t' <= c <= '\r')
    || ('\U{1C}' <= c <= '\U{1F}')
    || c == ' ' || c == '\U{85}' || c == '\U{A0}' || c == '\U{1680}'
    || ('\U{2000}' <= c <= '\U{200A}')
    || c == '\U{2028}' || c == '\U{2029}' || c == '\U{202F}' || c == '\U{205F}'
    || c == '\U{3000}'
  }

  /** The ASCII decimal digits (the regex class `\d` restricted to ASCII). */
  predicate IsDigit(c: char) {
    '0' <= c <= '9'
  }

  predicate AllSpace(s: string) {
    forall k :: 0 <= k < |s| ==> IsSpace(s[k])
  }

  predicate AllDigits(s: string) {
    forall k :: 0 <= k < |s| ==> IsDigit(s[k])
  }

  function LowerChar(c: char): char {
    if 'A' <= c <= 'Z' then (c as int + 32) as char else c
  }

  /** `str.lower()` on ASCII letters; every other character is kept. */
  function Lower(s: string): (r: string)
    ensures |r| == |s|
    ensures forall k :: 0 <= k < |s| ==> r[k] == LowerChar(s[k])
  {
    seq(|s|, k requires 0 <= k < |s| => LowerChar(s[k]))
  }

  /** `needle` occurs in `hay` starting at index `i`. */
  predicate OccursAt(hay: string, needle: string, i: int) {
    0 <= i && i + |needle| <= |hay| && hay[i..i + |needle|] == needle
  }

  function ContainsFrom(hay: string, needle: string, i: nat): (b: bool)
    ensures b <==> exists j :: i <= j && OccursAt(hay, needle, j)
    decreases |hay| - i
  {
    if i + |needle| > |hay| then false
    else if hay[i..i + |needle|] == needle then
      assert OccursAt(hay, needle, i);
      true
    else
      var b := ContainsFrom(hay, needle, i + 1);
      assert b <== exists j :: i <= j && OccursAt(hay, needle, j) by {
        if exists j :: i <= j && OccursAt(hay, needle, j) {
          var j :| i <= j && OccursAt(hay, needle, j);
          assert j != i;
        }
      }
      b
  }

  /** Python's `needle in hay` for strings. */
  function Contains(hay: string, needle: string): (b: bool)
    ensures b <==> exists j :: OccursAt(hay, needle, j)
  {
    ContainsFrom(hay, needle, 0)
  }

  /** Python's `any(n in hay for n in needles)`. */
  function ContainsAny(hay: string, needles: seq<string>): (b: bool)
    ensures b <==> exists k :: 0 <= k < |needles| && Contains(hay, needles[k])
  {
    if |needles| == 0 then false
    else Contains(hay, needles[0]) || ContainsAny(hay, needles[1..])
  }

  /** A needle found inside a longer needle is found wherever the longer one is. */
  lemma ContainsPrefixOf(hay: string, needle: string, prefix: string)
    requires |prefix| <= |needle| && needle[..|prefix|] == prefix
    requires Contains(hay, needle)
    ensures Contains(hay, prefix)
  {
    var j :| OccursAt(hay, needle, j);
    assert hay[j..j + |prefix|] == hay[j..j + |needle|][..|prefix|];
    assert OccursAt(hay, prefix, j);
  }

  /** Python's `s.startswith(p)`. */
  predicate StartsWith(s: string, p: string) {
    |p| <= |s| && s[..|p|] == p
  }

  // ---------------------------------------------------------------------
  // str.strip()

  /** The end of the run of whitespace starting at `i`. */
  function SkipSpaces(s: string, i: nat): (n: nat)
    requires i <= |s|
    ensures i <= n <= |s|
    decreases |s| - i
  {
    if i < |s| && IsSpace(s[i]) then SkipSpaces(s, i + 1) else i
  }

  /** The skipped run is all whitespace and stops at a non-space character. */
  lemma {:induction false} SkipSpacesSpec(s: string, i: nat)
    requires i <= |s|
    ensures forall k :: i <= k < SkipSpaces(s, i) ==> IsSpace(s[k])
    ensures SkipSpaces(s, i) < |s| ==> !IsSpace(s[SkipSpaces(s, i)])
    decreases |s| - i
  {
    if i < |s| && IsSpace(s[i]) {
      SkipSpacesSpec(s, i + 1);
    }
  }

  function TrimEnd(s: string, lo: nat, j: nat): (n: nat)
    requires lo <= j <= |s|
    ensures lo <= n <= j
    ensures forall k :: n <= k < j ==> IsSpace(s[k])
    ensures n > lo ==> !IsSpace(s[n - 1])
    decreases j
  {
    if j > lo && IsSpace(s[j - 1]) then TrimEnd(s, lo, j - 1) else j
  }

  /** Python's `s.strip()`: the slice of `s` left after removing leading and
      trailing whitespace; what is removed is all whitespace, and what is kept
      begins and ends with a non-space character. */
  function Strip(s: string): (r: string)
    ensures |r| <= |s|
    ensures |r| > 0 ==> !IsSpace(r[0]) && !IsSpace(r[|r| - 1])
  {
    var a := SkipSpaces(s, 0);
    SkipSpacesSpec(s, 0);
    var b := TrimEnd(s, a, |s|);
    assert b == a || !IsSpace(s[a]);
    s[a..b]
  }

  /** What `Strip` keeps is a slice of `s` with only whitespace around it. */
  lemma StripSpec(s: string)
    ensures exists a :: OccursAt(s, Strip(s), a) && AllSpace(s[..a]) && AllSpace(s[a + |Strip(s)|..])
  {
    var a := SkipSpaces(s, 0);
    SkipSpacesSpec(s, 0);
    var b := TrimEnd(s, a, |s|);
    assert OccursAt(s, s[a..b], a) && AllSpace(s[..a]) && AllSpace(s[a + (b - a)..]);
  }

  /** Stripping is idempotent. */
  lemma StripIdempotent(s: string)
    ensures Strip(Strip(s)) == Strip(s)
  {
    var r := Strip(s);
    StripNoEdgeSpace(r);
  }

  /** A string with no whitespace at either end is its own strip. */
  lemma StripNoEdgeSpace(s: string)
    requires |s| > 0 ==> !IsSpace(s[0]) && !IsSpace(s[|s| - 1])
    ensures Strip(s) == s
  {
    var a := SkipSpaces(s, 0);
    if |s| > 0 {
      assert a == 0;
      var b := TrimEnd(s, 0, |s|);
      assert b == |s|;
    }
  }

  // ---------------------------------------------------------------------
  // str.replace(old, '')

  /** Python's `s.replace(old, '')`: deletes the leftmost non-overlapping
      occurrences of `target`, scanning left to right (an empty `target` leaves `s`
      unchanged). */
  function ReplaceAll(s: string, target: string): (r: string)
    ensures |r| <= |s|
    decreases |s|
  {
    if |target| == 0 || |s| < |target| then
      s
    else if s[..|target|] == target then
      ReplaceAll(s[|target|..], target)
    else
      [s[0]] + ReplaceAll(s[1..], target)
  }

  /** Deleting removes something exactly when `target` occurs: without an
      occurrence `s` is returned unchanged, with one at least `|target|`
      characters go; every character kept comes from `s`. */
  lemma {:induction false} ReplaceAllSpec(s: string, target: string)
    ensures !Contains(s, target) ==> ReplaceAll(s, target) == s
    ensures |target| > 0 && Contains(s, target) ==> |ReplaceAll(s, target)| <= |s| - |target|
    ensures forall k :: 0 <= k < |ReplaceAll(s, target)| ==> ReplaceAll(s, target)[k] in s
    decreases |s|
  {
    if |target| == 0 || |s| < |target| {
      if |target| > 0 {
        assert forall j :: !OccursAt(s, target, j);
      }
    } else if s[..|target|] == target {
      assert OccursAt(s, target, 0);
      ReplaceAllSpec(s[|target|..], target);
      var rest := ReplaceAll(s[|target|..], target);
      forall k | 0 <= k < |rest| ensures rest[k] in s {
        assert rest[k] in s[|target|..];
      }
    } else {
      ReplaceAllSpec(s[1..], target);
      var rest := ReplaceAll(s[1..], target);
      ContainsShift(s, target);
      forall k | 0 <= k < |rest| ensures rest[k] in s {
        assert rest[k] in s[1..];
      }
      assert ReplaceAll(s, target) == [s[0]] + rest;
    }
  }

  /** The whole result, one deletion at a time: with the leftmost occurrence
      of `target` at `j`, the text before it is kept as it is, the occurrence
      goes, and the deletion resumes right after it. Together with the first
      ensures of `ReplaceAllSpec` (no occurrence, no change) this determines
      the result. */
  lemma ReplaceAllStep(s: string, target: string, j: nat)
    requires |target| > 0 && OccursAt(s, target, j)
    requires forall i :: 0 <= i < j ==> !OccursAt(s, target, i)
    ensures ReplaceAll(s, target) == s[..j] + ReplaceAll(s[j + |target|..], target)
  {
    KeepUntil(s, target, 0, j);
    assert s[0..] == s;
  }

  /** From `p` on, the characters before the leftmost occurrence at `j` are
      kept and that occurrence is deleted. */
  lemma {:induction false} KeepUntil(s: string, target: string, p: nat, j: nat)
    requires p <= j && |target| > 0 && OccursAt(s, target, j)
    requires forall i :: p <= i < j ==> !OccursAt(s, target, i)
    ensures ReplaceAll(s[p..], target) == s[p..j] + ReplaceAll(s[j + |target|..], target)
    decreases j - p
  {
    var t := s[p..];
    if p == j {
      assert t[..|target|] == target;
      DropFirst(t, target);
      assert t[|target|..] == s[j + |target|..];
    } else {
      assert !OccursAt(s, target, p);
      assert t[..|target|] == s[p..p + |target|];
      KeepFirst(t, target);
      assert t[1..] == s[p + 1..];
      KeepUntil(s, target, p + 1, j);
      SliceCons(s, p, j);
    }
  }

  lemma SliceCons(s: string, p: nat, j: nat)
    requires p < j <= |s|
    ensures s[p..j] == [s[p]] + s[p + 1..j]
  {
  }

  /** An occurrence at index 0 is deleted. */
  lemma DropFirst(s: string, target: string)
    requires |target| > 0 && |target| <= |s| && s[..|target|] == target
    ensures ReplaceAll(s, target) == ReplaceAll(s[|target|..], target)
  {
  }

  /** Without an occurrence at index 0 the first character is kept. */
  lemma KeepFirst(s: string, target: string)
    requires |target| > 0 && |target| <= |s| && s[..|target|] != target
    ensures ReplaceAll(s, target) == [s[0]] + ReplaceAll(s[1..], target)
  {
  }

  /** An occurrence in a non-empty string that is not at index 0 is an
      occurrence in its tail, and conversely. */
  lemma ContainsShift(s: string, needle: string)
    requires |s| > 0 && !OccursAt(s, needle, 0)
    ensures Contains(s, needle) <==> Contains(s[1..], needle)
  {
    if Contains(s, needle) {
      var j :| OccursAt(s, needle, j);
      assert j >= 1;
      assert s[1..][j - 1..j - 1 + |needle|] == s[j..j + |needle|];
      assert OccursAt(s[1..], needle, j - 1);
    }
    if Contains(s[1..], needle) {
      var j :| OccursAt(s[1..], needle, j);
      assert s[1..][j..j + |needle|] == s[j + 1..j + 1 + |needle|];
      assert OccursAt(s, needle, j + 1);
    }
  }

  /** For a non-empty `target`, replacing changes the string exactly when `target`
      occurs in it. */
  lemma ReplaceAllChangesIff(s: string, target: string)
    requires |target| > 0
    ensures ReplaceAll(s, target) == s <==> !Contains(s, target)
  {
    ReplaceAllSpec(s, target);
  }

  // ---------------------------------------------------------------------
  // sep.join(parts)

  /** Python's `sep.join(parts)`. */
  function Join(parts: seq<string>, sep: string): (r: string)
    ensures |parts| == 0 ==> r == ""
    ensures |parts| == 1 ==> r == parts[0]
    ensures |parts| > 0 ==> StartsWith(r, parts[0])
  {
    if |parts| == 0 then ""
    else if |parts| == 1 then parts[0]
    else parts[0] + sep + Join(parts[1..], sep)
  }

  /** Joining one more part appends the separator and that part. */
  lemma {:induction false} JoinSnoc(parts: seq<string>, p: string, sep: string)
    requires |parts| > 0
    ensures Join(parts + [p], sep) == Join(parts, sep) + sep + p
    decreases |parts|
  {
    if |parts| == 1 {
      assert (parts + [p])[1..] == [p];
    } else {
      assert (parts + [p])[1..] == parts[1..] + [p];
      JoinSnoc(parts[1..], p, sep);
    }
  }

  // ---------------------------------------------------------------------
  // str(n) for non-negative integers

  function DigitChar(d: nat): char
    requires d < 10
  {
    ('0' as int + d) as char
  }

  /** The value of a string of decimal digits. */
  function DecimalValue(s: string): nat
    requires AllDigits(s)
  {
    if |s| == 0 then 0
    else DecimalValue(s[..|s| - 1]) * 10 + (s[|s| - 1] as int - '0' as int)
  }

  /** Python's `str(n)` for a non-negative integer: decimal digits, no leading
      zero except for 0 itself. */
  function NatToString(n: nat): (r: string)
    ensures |r| > 0 && AllDigits(r)
    ensures r[0] == '0' ==> n == 0
  {
    if n < 10 then [DigitChar(n)]
    else NatToString(n / 10) + [DigitChar(n % 10)]
  }

  /** Reading the rendering back gives the number. */
  lemma {:induction false} NatToStringRoundTrip(n: nat)
    ensures DecimalValue(NatToString(n)) == n
  {
    if n >= 10 {
      var r := NatToString(n);
      assert r[..|r| - 1] == NatToString(n / 10);
      NatToStringRoundTrip(n / 10);
    }
  }

  /** Concatenation regroups freely. */
  lemma ConcatAssoc<T>(x: seq<T>, y: seq<T>, z: seq<T>)
    ensures x + (y + z) == (x + y) + z
  {
  }
}
