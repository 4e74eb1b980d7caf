/** The site-specific scraper (webscrapping.py): the per-card menu parser of
    `extract_menu_items` (lines 6-70) and the list building of
    `improved_extract_contact_info` (lines 72-96). A tag `find` returned is
    reduced to its `get_text(strip=True)` text; `find` gives None when there is
    no such tag, and a found BeautifulSoup tag is true in a boolean test even
    when it is empty, so `if tag:` asks only whether the tag was found. */
module SiteScraper {
  import opened Wrappers
  import opened Text

  const Rupee: char := '\U{20B9}'
  const NoPrice: string := "Price not found"
  const UnnamedItem: string := "Unnamed Item"
  const CategoryNoise: string := "Top Rated - "

  /** A tag `find` returned: its stripped text. */
  datatype Tag = Tag(text: string)

  // ---------------------------------------------------------------------
  // The rupee pattern `(?:price|₹|Rs\.?)\s*([\d,]+)`, case-insensitive

  /** The alternatives of the keyword group, in the order they are tried:
      `Rs\.?` first takes the dot. */
  const RupeeKeywords: seq<string> := ["price", [Rupee], "rs.", "rs"]

  predicate IsAmountChar(c: char) {
    IsDigit(c) || c == ','
  }

  /** Length of the maximal run of digits and commas starting at `p`. */
  function AmountRun(s: string, p: nat): (n: nat)
    requires p <= |s|
    ensures p + n <= |s|
    ensures forall k :: p <= k < p + n ==> IsAmountChar(s[k])
    ensures p + n < |s| ==> !IsAmountChar(s[p + n])
    decreases |s| - p
  {
    if p < |s| && IsAmountChar(s[p]) then 1 + AmountRun(s, p + 1) else 0
  }

  /** Keyword `kw` (lower case) occurs at `i`, ignoring ASCII case. */
  predicate KeywordAt(s: string, i: nat, kw: string) {
    i + |kw| <= |s| && forall k :: 0 <= k < |kw| ==> LowerChar(s[i + k]) == kw[k]
  }

  /** Where the captured amount starts when keyword `kw` matches at `i`: the
      keyword, any whitespace, then at least one digit or comma. */
  function AmountAfter(s: string, i: nat, kw: string): (r: Option<nat>)
    ensures r.Some? ==> KeywordAt(s, i, kw) && r.value < |s| && IsAmountChar(s[r.value])
  {
    if KeywordAt(s, i, kw) then
      var p := SkipSpaces(s, i + |kw|);
      if p < |s| && IsAmountChar(s[p]) then Some(p) else None
    else None
  }

  /** Where the captured group starts when the whole pattern matches at `i`:
      the alternatives are tried in order and the first that leads to a match
      decides. */
  function RupeeAt(s: string, i: nat): (r: Option<nat>)
    ensures r.Some? ==> r.value < |s| && IsAmountChar(s[r.value])
  {
    var a := AmountAfter(s, i, RupeeKeywords[0]);
    if a.Some? then a else
    var b := AmountAfter(s, i, RupeeKeywords[1]);
    if b.Some? then b else
    var c := AmountAfter(s, i, RupeeKeywords[2]);
    if c.Some? then c else AmountAfter(s, i, RupeeKeywords[3])
  }

  /** The pattern matches at `i` exactly when one of the keyword alternatives
      leads to a match there. */
  lemma RupeeAtSpec(s: string, i: nat)
    ensures RupeeAt(s, i).Some? <==> exists k :: 0 <= k < |RupeeKeywords| && AmountAfter(s, i, RupeeKeywords[k]).Some?
  {
  }

  /** Where the captured group starts for a match at each position
      `0..|s|`, tried left to right by the search. */
  function MatchTable(s: string): (t: seq<Option<nat>>)
    ensures |t| == |s| + 1
  {
    seq(|s| + 1, j requires 0 <= j <= |s| => RupeeAt(s, j))
  }

  /** `re.search(price_pattern, s, re.IGNORECASE).group(1)`: at the leftmost
      position where the pattern matches, the maximal run of digits and commas
      after the keyword and whitespace. */
  function RupeeSearch(s: string): (r: Option<string>)
    ensures r.Some? ==> |r.value| > 0
  {
    var t := MatchTable(s);
    var j := FirstSome(t, 0);
    if j.Some? then Some(Group(s, t[j.value].value)) else None
  }

  /** The captured group starting at `a`: the maximal run of digits and commas. */
  function Group(s: string, a: nat): (g: string)
    requires a < |s| && IsAmountChar(s[a])
    ensures |g| > 0 && OccursAt(s, g, a)
    ensures forall k :: 0 <= k < |g| ==> IsAmountChar(g[k])
    ensures a + |g| == |s| || !IsAmountChar(s[a + |g|])
  {
    s[a..a + AmountRun(s, a)]
  }

  /** A found amount is a run of digits and commas taken from `s`. */
  lemma RupeeSearchFound(s: string)
    ensures var r := RupeeSearch(s);
            r.Some? ==> Contains(s, r.value) && forall k :: 0 <= k < |r.value| ==> IsAmountChar(r.value[k])
  {
    var t := MatchTable(s);
    var j := FirstSome(t, 0);
    if j.Some? {
      assert t[j.value] == RupeeAt(s, j.value);
    }
  }

  /** The amount is the group of the match at the leftmost position where the
      pattern matches: the maximal run of digits and commas where that group
      starts. There is none exactly when the pattern matches nowhere. */
  lemma RupeeSearchLeftmost(s: string)
    ensures var r := RupeeSearch(s);
            && (r.Some? ==> exists j :: && 0 <= j <= |s| && RupeeAt(s, j).Some?
                                        && r.value == Group(s, RupeeAt(s, j).value)
                                        && forall i :: 0 <= i < j ==> RupeeAt(s, i).None?)
            && (r.None? <==> forall j :: 0 <= j <= |s| ==> RupeeAt(s, j).None?)
  {
    var t := MatchTable(s);
    var j := FirstSome(t, 0);
    if j.Some? {
      assert t[j.value] == RupeeAt(s, j.value);
      assert forall i :: 0 <= i < j.value ==> RupeeAt(s, i).None? by {
        forall i | 0 <= i < j.value ensures RupeeAt(s, i).None? {
          assert t[i].None? && t[i] == RupeeAt(s, i);
        }
      }
      assert 0 <= j.value <= |s| && RupeeAt(s, j.value).Some? && RupeeSearch(s).value == Group(s, RupeeAt(s, j.value).value);
    } else {
      forall i | 0 <= i <= |s| ensures RupeeAt(s, i).None? {
        assert t[i].None? && t[i] == RupeeAt(s, i);
      }
    }
  }

  /** Only whitespace may separate the keyword from the amount: a keyword
      followed by a character that is neither whitespace nor a digit or comma
      (the colon of "Price: 250", say) leads to no match. */
  lemma KeywordThenOtherChar(s: string, i: nat, kw: string)
    requires KeywordAt(s, i, kw) && i + |kw| < |s|
    requires !IsSpace(s[i + |kw|]) && !IsAmountChar(s[i + |kw|])
    ensures AmountAfter(s, i, kw).None?
  {
  }

  /** "Rs." in any case, then any whitespace, then a digit or comma: the
      pattern matches there with the dot consumed, and the group starts at
      that digit or comma (so "Rs. 1,200" captures "1,200"). */
  lemma RsDotMatch(s: string, i: nat)
    requires KeywordAt(s, i, "rs.")
    requires SkipSpaces(s, i + 3) < |s| && IsAmountChar(s[SkipSpaces(s, i + 3)])
    ensures RupeeAt(s, i) == Some(SkipSpaces(s, i + 3))
  {
    assert LowerChar(s[i]) == "rs."[0];
    assert !KeywordAt(s, i, RupeeKeywords[0]) by { assert RupeeKeywords[0][0] == 'p'; }
    assert !KeywordAt(s, i, RupeeKeywords[1]) by { assert RupeeKeywords[1][0] == Rupee; }
    assert RupeeKeywords[2] == "rs.";
  }

  // ---------------------------------------------------------------------
  // One card

  /** The attributes of a card's `img`; a missing attribute reads as "". */
  datatype Img = Img(dataSrc: string, src: string, dataLazy: string)

  /** One item card (`div` of class strip, item_version_2 or list_home):
      - `h3`, `h4`, `strong`: the first such tag inside, if any;
      - `priceLi`: the first `li` whose text matches "price"; `priceSpan`: the
        first `span` whose class matches "price";
      - `fullText`: `get_text()`; `cardText`: `get_text(strip=True, separator=' ')`;
      - `img`: the first `img`, if any. */
  datatype Card = Card(
    h3: Option<Tag>, h4: Option<Tag>, strong: Option<Tag>,
    priceLi: Option<Tag>, priceSpan: Option<Tag>,
    fullText: string, cardText: string,
    img: Option<Img>)

  datatype SiteItem = SiteItem(item: string, price: string, category: string, imageUrl: string, fullCardText: string)

  /** `h3 or h4 or strong`: the first tag found, else the text "Unnamed Item". */
  function CardName(c: Card): (r: string)
    ensures c.h3.Some? ==> r == c.h3.value.text
    ensures c.h3.None? && c.h4.Some? ==> r == c.h4.value.text
    ensures c.h3.None? && c.h4.None? && c.strong.Some? ==> r == c.strong.value.text
    ensures c.h3.None? && c.h4.None? && c.strong.None? ==> r == UnnamedItem
  {
    if c.h3.Some? then c.h3.value.text
    else if c.h4.Some? then c.h4.value.text
    else if c.strong.Some? then c.strong.value.text
    else UnnamedItem
  }

  /** The explicit price tag: the `li`, or the `span` when no `li` was found. */
  function PriceTag(c: Card): Option<Tag> {
    if c.priceLi.Some? then c.priceLi else c.priceSpan
  }

  /** The price: from the explicit tag's text when one was found (even an empty one), from the
      full card text otherwise; "₹" before the captured amount, or "Price not
      found". */
  function CardPrice(c: Card): string {
    var tag := PriceTag(c);
    var m := if tag.Some? then RupeeSearch(tag.value.text) else RupeeSearch(c.fullText);
    if m.Some? then [Rupee] + m.value else NoPrice
  }

  /** The price is "₹" followed by a non-empty run of digits and commas found
      in the searched text, or "Price not found". */
  lemma CardPriceShape(c: Card)
    ensures var p := CardPrice(c);
            || p == NoPrice
            || (&& |p| > 1 && p[0] == Rupee
                && (forall k :: 1 <= k < |p| ==> IsAmountChar(p[k]))
                && (PriceTag(c).Some? ==> Contains(PriceTag(c).value.text, p[1..]))
                && (PriceTag(c).None? ==> Contains(c.fullText, p[1..])))
  {
    var tag := PriceTag(c);
    var m := if tag.Some? then RupeeSearch(tag.value.text) else RupeeSearch(c.fullText);
    if tag.Some? {
      RupeeSearchFound(tag.value.text);
    } else {
      RupeeSearchFound(c.fullText);
    }
    if m.Some? {
      var p := [Rupee] + m.value;
      assert p[1..] == m.value;
      assert forall k :: 1 <= k < |p| ==> p[k] == m.value[k - 1];
    }
  }

  /** A found price tag takes precedence: the full card text is then never
      searched, so a tag without a match gives "Price not found" whatever the
      rest of the card says. */
  lemma TagPrecedence(c: Card, otherText: string)
    requires PriceTag(c).Some?
    ensures CardPrice(c) == CardPrice(c.(fullText := otherText))
    ensures RupeeSearch(PriceTag(c).value.text).None? ==> CardPrice(c) == NoPrice
  {
  }

  /** A found price tag with no text gives "Price not found", even when the
      rest of the card names a price. */
  lemma EmptyPriceTag(c: Card)
    requires PriceTag(c) == Some(Tag(""))
    ensures CardPrice(c) == NoPrice
  {
    var t := MatchTable("");
    assert t[0] == RupeeAt("", 0);
    assert FirstSome(t, 0).None?;
  }

  /** `data-src or src or data-lazy`, with a protocol-relative URL made https. */
  function ImageUrl(img: Img): (r: string)
    ensures var u := if img.dataSrc != "" then img.dataSrc else if img.src != "" then img.src else img.dataLazy;
            && (StartsWith(u, "//") ==> r == "https:" + u && StartsWith(r, "https://"))
            && (!StartsWith(u, "//") ==> r == u)
  {
    var u := if img.dataSrc != "" then img.dataSrc else if img.src != "" then img.src else img.dataLazy;
    if StartsWith(u, "//") then
      assert ("https:" + u)[..8] == "https:" + u[..2];
      "https:" + u
    else u
  }

  /** The item of one card; a card without an `img` raises inside the `try`
      and is skipped. */
  function CardItem(c: Card, category: string): (r: Option<SiteItem>)
    ensures r.Some? <==> c.img.Some?
    ensures r.Some? ==> r.value == SiteItem(CardName(c), CardPrice(c), category, ImageUrl(c.img.value), c.cardText)
  {
    if c.img.None? then None
    else Some(SiteItem(CardName(c), CardPrice(c), category, ImageUrl(c.img.value), c.cardText))
  }

  function CardItems(cards: seq<Card>, category: string): (r: seq<SiteItem>)
    ensures |r| <= |cards|
  {
    if cards == [] then []
    else
      var rest := CardItems(cards[1..], category);
      var it := CardItem(cards[0], category);
      if it.Some? then [it.value] + rest else rest
  }

  /** The cards that have an image, in order. */
  function WithImage(cards: seq<Card>): (r: seq<Card>)
    ensures |r| <= |cards|
    ensures forall k :: 0 <= k < |r| ==> r[k].img.Some? && r[k] in cards
    ensures forall c :: c in cards && c.img.Some? ==> c in r
  {
    if cards == [] then [] else (if cards[0].img.Some? then [cards[0]] else []) + WithImage(cards[1..])
  }

  /** The cards with an image keep document order and multiplicity: those of
      a list split in two are those of each part, one after the other */
  lemma {:induction false} WithImageAppend(a: seq<Card>, b: seq<Card>)
    ensures WithImage(a + b) == WithImage(a) + WithImage(b)
    decreases |a|
  {
    if a == [] {
      assert a + b == b;
    } else {
      assert (a + b)[0] == a[0];
      assert (a + b)[1..] == a[1..] + b;
      WithImageAppend(a[1..], b);
    }
  }

  /** One card is kept exactly when it has an image. */
  lemma WithImageSingle(c: Card)
    ensures WithImage([c]) == (if c.img.Some? then [c] else [])
  {
    assert [c][1..] == [];
  }

  /** The items of a section's cards are exactly the items of the cards with
      an image, one per card and in order, each carrying the section's
      category. */
  lemma {:induction false} CardItemsSpec(cards: seq<Card>, category: string)
    ensures var r := CardItems(cards, category);
            var w := WithImage(cards);
            && |r| == |w|
            && forall k :: 0 <= k < |w| ==>
                 r[k] == SiteItem(CardName(w[k]), CardPrice(w[k]), category, ImageUrl(w[k].img.value), w[k].cardText)
    decreases |cards|
  {
    if cards != [] {
      CardItemsSpec(cards[1..], category);
      var w := WithImage(cards);
      var r := CardItems(cards, category);
      if cards[0].img.Some? {
        assert w == [cards[0]] + WithImage(cards[1..]);
        assert r == [CardItem(cards[0], category).value] + CardItems(cards[1..], category);
      } else {
        assert w == WithImage(cards[1..]);
      }
    }
  }

  // ---------------------------------------------------------------------
  // Sections

  /** A `section` of class product-area: its first `h2`, if any, and its cards. */
  datatype Section = Section(h2: Option<Tag>, cards: seq<Card>)

  /** The category: the heading's text with every "Top Rated - " removed. */
  function Category(h2: Tag): string {
    ReplaceAll(h2.text, CategoryNoise)
  }

  /** A heading without the noise is its own category; otherwise the text
      before the first "Top Rated - " is kept, that occurrence goes, and the
      rest is cleaned the same way. No category is longer than its heading. */
  lemma CategoryShape(h2: Tag)
    ensures !Contains(h2.text, CategoryNoise) ==> Category(h2) == h2.text
    ensures forall j :: OccursAt(h2.text, CategoryNoise, j)
                        && (forall i :: 0 <= i < j ==> !OccursAt(h2.text, CategoryNoise, i)) ==>
              Category(h2) == h2.text[..j] + ReplaceAll(h2.text[j + |CategoryNoise|..], CategoryNoise)
    ensures |Category(h2)| <= |h2.text|
  {
    ReplaceAllSpec(h2.text, CategoryNoise);
    forall j | OccursAt(h2.text, CategoryNoise, j)
               && (forall i :: 0 <= i < j ==> !OccursAt(h2.text, CategoryNoise, i))
      ensures Category(h2) == h2.text[..j] + ReplaceAll(h2.text[j + |CategoryNoise|..], CategoryNoise)
    {
      ReplaceAllStep(h2.text, CategoryNoise, j);
    }
  }

  function SectionItems(s: Section): seq<SiteItem> {
    if s.h2.Some? then CardItems(s.cards, Category(s.h2.value)) else []
  }

  /** `extract_menu_items`: the sections' items concatenated in order. */
  function ExtractSiteMenu(sections: seq<Section>): seq<SiteItem> {
    if sections == [] then [] else SectionItems(sections[0]) + ExtractSiteMenu(sections[1..])
  }

  /** The menu of more sections is the menu of the first ones followed by the
      menu of the rest; a section without an `h2` contributes nothing. */
  lemma {:induction false} ExtractSiteMenuAppend(a: seq<Section>, b: seq<Section>)
    ensures ExtractSiteMenu(a + b) == ExtractSiteMenu(a) + ExtractSiteMenu(b)
    decreases |a|
  {
    if a == [] {
      assert a + b == b;
    } else {
      assert (a + b)[0] == a[0];
      assert (a + b)[1..] == a[1..] + b;
      ExtractSiteMenuAppend(a[1..], b);
      ConcatAssoc(SectionItems(a[0]), ExtractSiteMenu(a[1..]), ExtractSiteMenu(b));
    }
  }

  /** A section without an `h2` adds no items. */
  lemma HeaderlessSectionSkipped(a: seq<Section>, s: Section)
    requires s.h2.None?
    ensures ExtractSiteMenu(a + [s]) == ExtractSiteMenu(a)
  {
    ExtractSiteMenuAppend(a, [s]);
    assert ExtractSiteMenu([s]) == [];
  }

  /** Every item's category is the cleaned heading text of a section that has
      an `h2`. */
  lemma {:induction false} SiteCategories(sections: seq<Section>)
    ensures forall m :: m in ExtractSiteMenu(sections) ==>
              exists s :: s in sections && s.h2.Some? && m.category == Category(s.h2.value)
    decreases |sections|
  {
    if sections != [] {
      var s := sections[0];
      if s.h2.Some? {
        CardItemsSpec(s.cards, Category(s.h2.value));
      }
      SiteCategories(sections[1..]);
      assert s in sections;
      assert forall t :: t in sections[1..] ==> t in sections;
    }
  }

  // ---------------------------------------------------------------------
  // Contact lists

  /** The pattern `\+?\d[\d\s-]{7,}` at `i`: the length of its match, or 0.
      The optional `+` is taken when a digit follows it; the class run is
      greedy, and giving characters back never helps. */
  predicate IsPhoneClassChar(c: char) {
    IsDigit(c) || IsSpace(c) || c == '-'
  }

  function PhoneClassRun(s: string, p: nat): (n: nat)
    requires p <= |s|
    ensures p + n <= |s|
    ensures forall k :: p <= k < p + n ==> IsPhoneClassChar(s[k])
    ensures p + n < |s| ==> !IsPhoneClassChar(s[p + n])
    decreases |s| - p
  {
    if p < |s| && IsPhoneClassChar(s[p]) then 1 + PhoneClassRun(s, p + 1) else 0
  }

  /** Where the digit of a match at `i` sits: after a `+` when there is one. */
  function LeadDigit(s: string, i: nat): nat {
    if i < |s| && s[i] == '+' then i + 1 else i
  }

  /** A string the phone pattern matches in full: an optional `+`, a digit,
      then at least seven digits, whitespace characters or hyphens. */
  predicate IsPhoneToken(t: string) {
    var d := if |t| > 0 && t[0] == '+' then 1 else 0;
    && |t| >= d + 8
    && IsDigit(t[d])
    && forall k :: d < k < |t| ==> IsPhoneClassChar(t[k])
  }

  predicate AllPhoneClass(t: string) {
    forall k :: 0 <= k < |t| ==> IsPhoneClassChar(t[k])
  }

  /** The pattern matches at `i`: after the optional `+`, a digit and then
      seven characters of the class. */
  predicate PhoneStartsAt(s: string, i: nat) {
    var d := LeadDigit(s, i);
    d + 8 <= |s| && IsDigit(s[d]) && AllPhoneClass(s[d + 1..d + 8])
  }

  /** Length of the match at `i`, or 0 when the pattern does not match there. */
  function PhoneTokenLen(s: string, i: nat): (n: nat)
    requires i <= |s|
    ensures i + n <= |s|
    ensures n > 0 <==> PhoneStartsAt(s, i)
    ensures n > 0 ==> n >= 8
  {
    if PhoneStartsAt(s, i) then
      var d := LeadDigit(s, i);
      assert forall k :: d + 1 <= k < d + 8 ==> s[k] == s[d + 1..d + 8][k - d - 1];
      RunCovers(s, d + 1, d + 8);
      d + 1 + PhoneClassRun(s, d + 1) - i
    else
      0
  }

  /** Soundness: the match at `i` is a phone token. */
  lemma PhoneTokenLenSound(s: string, i: nat)
    requires i <= |s|
    ensures PhoneTokenLen(s, i) > 0 ==> IsPhoneToken(s[i..i + PhoneTokenLen(s, i)])
  {
    var n := PhoneTokenLen(s, i);
    var t := s[i..i + n];
    assert forall k :: 0 <= k < n ==> t[k] == s[i + k];
  }

  /** The class run from `p` reaches past every class character that follows
      `p` without a gap. */
  lemma {:induction false} RunCovers(s: string, p: nat, q: nat)
    requires p <= q <= |s|
    requires forall k :: p <= k < q ==> IsPhoneClassChar(s[k])
    ensures PhoneClassRun(s, p) >= q - p
    decreases q - p
  {
    if p < q {
      RunCovers(s, p + 1, q);
    }
  }

  /** Completeness and greed: whenever some text starting at `i` is a phone
      token, the pattern matches at `i`, and its match is at least as long. */
  lemma PhoneTokenLenMaximal(s: string, i: nat, e: nat)
    requires i <= e <= |s| && IsPhoneToken(s[i..e])
    ensures PhoneTokenLen(s, i) >= e - i > 0
  {
    var t := s[i..e];
    var d := LeadDigit(s, i);
    assert forall k :: 0 <= k < |t| ==> t[k] == s[i + k];
    assert d - i == (if |t| > 0 && t[0] == '+' then 1 else 0);
    RunCovers(s, d + 1, e);
  }

  /** The pattern matches at `i` exactly when some text starting there is a
      phone token. */
  lemma PhoneTokenLenIff(s: string, i: nat)
    requires i <= |s|
    ensures PhoneTokenLen(s, i) > 0 <==> exists e :: i <= e <= |s| && IsPhoneToken(s[i..e])
  {
    PhoneTokenLenSound(s, i);
    if exists e :: i <= e <= |s| && IsPhoneToken(s[i..e]) {
      var e :| i <= e <= |s| && IsPhoneToken(s[i..e]);
      PhoneTokenLenMaximal(s, i, e);
    }
  }

  /** `re.findall(pattern, s[i..])`: the matches, leftmost and non-overlapping. */
  function PhoneMatchesFrom(s: string, i: nat): (r: seq<string>)
    requires i <= |s|
    ensures forall k :: 0 <= k < |r| ==> IsPhoneToken(r[k]) && Contains(s, r[k])
    decreases |s| - i
  {
    if i == |s| then []
    else
      var n := PhoneTokenLen(s, i);
      if n > 0 then
        var t := s[i..i + n];
        assert OccursAt(s, t, i);
        assert forall k :: 0 <= k < |t| ==> t[k] == s[i + k];
        [t] + PhoneMatchesFrom(s, i + n)
      else
        PhoneMatchesFrom(s, i + 1)
  }

  /** The scan from `i` finds nothing exactly when the pattern matches at no
      position at or after `i`. */
  lemma {:induction false} PhoneMatchesFromNone(s: string, i: nat)
    requires i <= |s|
    ensures PhoneMatchesFrom(s, i) == [] <==> forall j :: i <= j < |s| ==> !PhoneStartsAt(s, j)
    decreases |s| - i
  {
    if i < |s| {
      if PhoneStartsAt(s, i) {
        TakeMatch(s, i);
      } else {
        SkipUnmatched(s, i, i + 1);
        PhoneMatchesFromNone(s, i + 1);
      }
    }
  }

  /** The whole list, one match at a time: scanning from `i` reports the
      greedy match at the leftmost position `j` at or after `i` where the
      pattern matches, then resumes right after it. With `PhoneTokenLenIff`
      and `PhoneTokenLenMaximal` this pins the list to leftmost, longest,
      non-overlapping phone tokens. */
  lemma PhoneMatchesFromStep(s: string, i: nat, j: nat)
    requires i <= j < |s| && PhoneStartsAt(s, j)
    requires forall k :: i <= k < j ==> !PhoneStartsAt(s, k)
    ensures PhoneMatchesFrom(s, i) == [s[j..j + PhoneTokenLen(s, j)]] + PhoneMatchesFrom(s, j + PhoneTokenLen(s, j))
  {
    SkipUnmatched(s, i, j);
    TakeMatch(s, j);
  }

  /** Scanning from `i` where the pattern matches nowhere before `j` is
      scanning from `j`. */
  lemma {:induction false} SkipUnmatched(s: string, i: nat, j: nat)
    requires i <= j <= |s|
    requires forall k :: i <= k < j ==> !PhoneStartsAt(s, k)
    ensures PhoneMatchesFrom(s, i) == PhoneMatchesFrom(s, j)
    decreases j - i
  {
    if i < j {
      assert PhoneTokenLen(s, i) == 0;
      SkipUnmatched(s, i + 1, j);
    }
  }

  /** A position where the pattern matches contributes its match. */
  lemma TakeMatch(s: string, j: nat)
    requires j < |s| && PhoneStartsAt(s, j)
    ensures PhoneMatchesFrom(s, j) == [s[j..j + PhoneTokenLen(s, j)]] + PhoneMatchesFrom(s, j + PhoneTokenLen(s, j))
  {
  }

  /** `list(set(re.findall(pattern, text)))`: the distinct matches; Python's
      set order is not modelled, so the result is a set. */
  function PhoneSet(text: string): (r: set<string>)
    ensures forall p :: p in r <==> p in PhoneMatchesFrom(text, 0)
    ensures forall p :: p in r ==> IsPhoneToken(p) && Contains(text, p)
    ensures r == {} <==> forall j :: 0 <= j < |text| ==> !PhoneStartsAt(text, j)
  {
    var ms := PhoneMatchesFrom(text, 0);
    var r := set k | 0 <= k < |ms| :: ms[k];
    assert ms != [] ==> ms[0] in r;
    PhoneMatchesFromNone(text, 0);
    r
  }

  /** The hrefs that start with "mailto:", in document order
      (`select('a[href^="mailto:"]')`). */
  function MailtoLinks(hrefs: seq<string>): (r: seq<string>)
    ensures |r| <= |hrefs|
    ensures forall k :: 0 <= k < |r| ==> StartsWith(r[k], "mailto:") && r[k] in hrefs
    ensures forall h :: h in hrefs && StartsWith(h, "mailto:") ==> h in r
  {
    if hrefs == [] then []
    else (if StartsWith(hrefs[0], "mailto:") then [hrefs[0]] else []) + MailtoLinks(hrefs[1..])
  }

  function RemoveMailto(links: seq<string>): (r: seq<string>)
    ensures |r| == |links|
    ensures forall k :: 0 <= k < |links| ==> r[k] == ReplaceAll(links[k], "mailto:")
  {
    seq(|links|, k requires 0 <= k < |links| => ReplaceAll(links[k], "mailto:"))
  }

  /** The emails: every `mailto:` link, in document order, with "mailto:" removed. */
  function Emails(hrefs: seq<string>): seq<string> {
    RemoveMailto(MailtoLinks(hrefs))
  }

  lemma {:induction false} MailtoLinksAppend(a: seq<string>, b: seq<string>)
    ensures MailtoLinks(a + b) == MailtoLinks(a) + MailtoLinks(b)
    decreases |a|
  {
    if a == [] {
      assert a + b == b;
    } else {
      assert (a + b)[0] == a[0];
      assert (a + b)[1..] == a[1..] + b;
      MailtoLinksAppend(a[1..], b);
    }
  }

  /** Emails keep document order: the emails of a page split in two are the
      emails of the first part followed by those of the second. */
  lemma EmailsAppend(a: seq<string>, b: seq<string>)
    ensures Emails(a + b) == Emails(a) + Emails(b)
  {
    MailtoLinksAppend(a, b);
  }

  /** The `div` of id collapse_4: the stripped texts of its `li` elements. */
  datatype AddressSection = AddressSection(items: seq<string>)

  /** The `div` of class contacts: its `get_text()`. */
  datatype PhoneSection = PhoneSection(text: string)

  /** The result dictionary; an absent key is None. */
  datatype SiteContact = SiteContact(addresses: Option<seq<string>>, phones: Option<set<string>>, emails: seq<string>)

  function ExtractSiteContact(addr: Option<AddressSection>, phone: Option<PhoneSection>, hrefs: seq<string>): (r: SiteContact)
    ensures r.addresses.Some? <==> addr.Some?
    ensures r.addresses.Some? ==> r.addresses.value == addr.value.items
    ensures r.phones.Some? <==> phone.Some?
    ensures r.phones.Some? ==> forall p :: p in r.phones.value <==> p in PhoneMatchesFrom(phone.value.text, 0)
    ensures r.phones.Some? ==> forall p :: p in r.phones.value ==> IsPhoneToken(p) && Contains(phone.value.text, p)
    ensures r.emails == Emails(hrefs)
  {
    SiteContact(
      if addr.Some? then Some(addr.value.items) else None,
      if phone.Some? then Some(PhoneSet(phone.value.text)) else None,
      Emails(hrefs))
  }
}
