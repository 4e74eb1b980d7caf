/** Menu-item extraction of the general scraper (`extract_menu_items`,
    web_scrapping_general.py lines 17-114). The parsed page is abstracted to the
    elements each strategy selects, in document order: an element is its tag
    name and its text. */
module Menu {
  import opened Wrappers
  import opened Text
  import opened PriceScan
  import opened Dom

  /** A heading element together with its following siblings, in document order
      (what `find_next_siblings` walks). */
  datatype Heading = Heading(tag: string, text: string, siblings: seq<Element>)

  /** What the three strategies look at:
      - `blocks`: the elements whose single text string is matched against the
        price pattern (strategy 1);
      - `headings`: the page's headings (strategy 2);
      - `menuDivs`: for each `div` whose class mentions "menu", its headings
        (strategy 3). */
  datatype MenuPage = MenuPage(blocks: seq<Element>, headings: seq<Heading>, menuDivs: seq<seq<Heading>>)

  /** One extracted menu item. `section` is absent for items of strategy 1. */
  datatype MenuItem = MenuItem(
    item: string,
    price: string,
    description: string,
    section: Option<string>,
    vegetarian: bool,
    vegan: bool,
    glutenFree: bool,
    spicy: bool)

  const VegetarianWords: seq<string> := ["vegetarian", "veg", "plant-based", "meatless"]
  const VeganWords: seq<string> := ["vegan"]
  const GlutenFreeWords: seq<string> := ["gluten-free", "gluten free", "gf"]
  const SpicyWords: seq<string> := ["spicy", "hot", "chili"]

  predicate IsVegetarianText(text: string) { ContainsAny(Lower(text), VegetarianWords) }
  predicate IsVeganText(text: string) { ContainsAny(Lower(text), VeganWords) }
  predicate IsGlutenFreeText(text: string) { ContainsAny(Lower(text), GlutenFreeWords) }
  predicate IsSpicyText(text: string) { ContainsAny(Lower(text), SpicyWords) }

  /** The four flags are the keyword tests on the item's own text. */
  predicate DietaryConsistent(m: MenuItem) {
    && m.vegetarian == IsVegetarianText(m.description)
    && m.vegan == IsVeganText(m.description)
    && m.glutenFree == IsGlutenFreeText(m.description)
    && m.spicy == IsSpicyText(m.description)
  }

  /** What every extracted item satisfies: its description is stripped text,
      its price is a price token occurring in that text, and its flags are the
      keyword tests on that text. */
  predicate WellFormed(m: MenuItem) {
    && Strip(m.description) == m.description
    && IsPriceToken(m.price)
    && Contains(m.description, m.price)
    && |m.item| <= |m.description|
    && DietaryConsistent(m)
  }

  /** "vegan" contains "veg", so vegan text is always vegetarian text. */
  lemma VeganImpliesVegetarian(text: string)
    ensures IsVeganText(text) ==> IsVegetarianText(text)
  {
    if IsVeganText(text) {
      assert Contains(Lower(text), VeganWords[0]);
      ContainsPrefixOf(Lower(text), "vegan", "veg");
      assert Contains(Lower(text), VegetarianWords[1]);
    }
  }

  /** The cleaned name: each found price in turn is deleted everywhere with
      `replace(price, '')` and the result stripped. */
  function CleanName(text: string, prices: seq<string>): (r: string)
    ensures |r| <= |text|
    ensures prices == [] ==> r == text
    ensures prices != [] ==> Strip(r) == r
    decreases |prices|
  {
    if prices == [] then
      text
    else
      var next := Strip(ReplaceAll(text, prices[0]));
      if |prices| == 1 then StripIdempotent(ReplaceAll(text, prices[0])); next
      else CleanName(next, prices[1..])
  }

  /** The item built from one fragment's text, or None when the price scanner
      finds nothing in it. */
  function BuildItem(raw: string, section: Option<string>): Option<MenuItem>
  {
    var text := Strip(raw);
    var prices := FindPrices(text);
    if prices == [] then
      None
    else
      Some(MenuItem(CleanName(text, prices), prices[0], text, section,
                    IsVegetarianText(text), IsVeganText(text),
                    IsGlutenFreeText(text), IsSpicyText(text)))
  }

  /** A fragment yields an item exactly when its stripped text holds a `$`
      directly followed by a digit; the item's description is that stripped
      text, its price the first price found, its name the cleaned text, and the
      item is well formed. */
  lemma BuildItemSpec(raw: string, section: Option<string>)
    ensures var r := BuildItem(raw, section);
            && (r.Some? <==> exists j :: DollarDigitAt(Strip(raw), j))
            && (r.Some? ==> && r.value.description == Strip(raw)
                            && r.value.section == section
                            && r.value.price == FindPrices(Strip(raw))[0]
                            && r.value.item == CleanName(Strip(raw), FindPrices(Strip(raw)))
                            && WellFormed(r.value))
  {
    var r := BuildItem(raw, section);
    if r.Some? {
      StripIdempotent(raw);
    }
  }

  /** Stripping cannot create a `$`-digit pair that was not in the text. */
  lemma StripKeepsDollarDigit(raw: string, j: int)
    requires DollarDigitAt(Strip(raw), j)
    ensures exists i :: DollarDigitAt(raw, i)
  {
    var r := Strip(raw);
    StripSpec(raw);
    var a :| OccursAt(raw, r, a) && AllSpace(raw[..a]) && AllSpace(raw[a + |r|..]);
    assert raw[a + j] == r[j] && raw[a + j + 1] == r[j + 1];
    assert DollarDigitAt(raw, a + j);
  }

  /** The items built from a sequence of elements, in order, skipping those
      without a price. */
  function ItemsFrom(elems: seq<Element>, section: Option<string>): (r: seq<MenuItem>)
    ensures |r| <= |elems|
  {
    if elems == [] then []
    else
      var rest := ItemsFrom(elems[1..], section);
      var built := BuildItem(elems[0].text, section);
      if built.Some? then [built.value] + rest else rest
  }

  /** Every item built from a sequence of elements is well formed and carries
      the given section. */
  lemma {:induction false} ItemsFromProps(elems: seq<Element>, section: Option<string>)
    ensures forall m :: m in ItemsFrom(elems, section) ==> WellFormed(m) && m.section == section
    decreases |elems|
  {
    if elems != [] {
      BuiltItemProps(elems[0].text, section);
      ItemsFromProps(elems[1..], section);
      var built := BuildItem(elems[0].text, section);
      var rest := ItemsFrom(elems[1..], section);
      assert ItemsFrom(elems, section) == if built.Some? then [built.value] + rest else rest;
    }
  }

  lemma BuiltItemProps(raw: string, section: Option<string>)
    ensures var r := BuildItem(raw, section);
            r.Some? ==> WellFormed(r.value) && r.value.section == section
  {
    BuildItemSpec(raw, section);
  }

  /** Building items distributes over concatenation: order is preserved. */
  lemma {:induction false} ItemsFromAppend(a: seq<Element>, b: seq<Element>, section: Option<string>)
    ensures ItemsFrom(a + b, section) == ItemsFrom(a, section) + ItemsFrom(b, section)
    decreases |a|
  {
    if a != [] {
      assert (a + b)[0] == a[0];
      assert (a + b)[1..] == a[1..] + b;
      ItemsFromAppend(a[1..], b, section);
      var built := BuildItem(a[0].text, section);
      if built.Some? {
        ConcatAssoc([built.value], ItemsFrom(a[1..], section), ItemsFrom(b, section));
      }
    } else {
      assert a + b == b;
    }
  }

  /** No `$` in the text is directly followed by a digit. */
  ghost predicate Unpriced(text: string) {
    forall i :: !DollarDigitAt(text, i)
  }

  /** Elements with no `$`-digit pair yield no items. */
  lemma {:induction false} ItemsFromUnpriced(elems: seq<Element>, section: Option<string>)
    requires forall e :: e in elems ==> Unpriced(e.text)
    ensures ItemsFrom(elems, section) == []
    decreases |elems|
  {
    if elems != [] {
      BuildItemSpec(elems[0].text, section);
      if BuildItem(elems[0].text, section).Some? {
        var j :| DollarDigitAt(Strip(elems[0].text), j);
        StripKeepsDollarDigit(elems[0].text, j);
      }
      ItemsFromUnpriced(elems[1..], section);
    }
  }

  // ---------------------------------------------------------------------
  // Strategy 1: every p/li/div whose text contains a price.

  const BlockTags: set<string> := {"p", "li", "div"}

  function PricedBlocks(blocks: seq<Element>): (r: seq<MenuItem>)
    ensures |r| <= |blocks|
  {
    ItemsFrom(WithTags(blocks, BlockTags), None)
  }

  // ---------------------------------------------------------------------
  // Strategy 2: up to 10 p/div/li/span siblings after each menu-like heading.

  const HeadingTags: set<string> := {"h2", "h3", "h4"}
  const MenuHeadingWords: seq<string> := ["menu", "appetizer", "entree", "dessert", "starter", "main"]
  const HeadingSiblingTags: set<string> := {"p", "div", "li", "span"}
  const HeadingSiblingLimit: nat := 10

  /** An h2/h3/h4 whose text matches `menu|appetizer|entree|dessert|starter|main`
      case-insensitively. */
  predicate IsMenuHeading(h: Heading) {
    h.tag in HeadingTags && ContainsAny(Lower(h.text), MenuHeadingWords)
  }

  /** The elements strategy 2 inspects after a heading. */
  function HeadingWindow(h: Heading): (r: seq<Element>)
    ensures |r| <= HeadingSiblingLimit
    ensures forall e :: e in r ==> e in h.siblings && e.tag in HeadingSiblingTags
  {
    Take(WithTags(h.siblings, HeadingSiblingTags), HeadingSiblingLimit)
  }

  /** The items after one heading: at most ten. */
  function HeadingItems(h: Heading): (r: seq<MenuItem>)
    ensures |r| <= HeadingSiblingLimit
  {
    ItemsFrom(HeadingWindow(h), Some(Strip(h.text)))
  }

  function HeadingStrategy(hs: seq<Heading>): (r: seq<MenuItem>)
    ensures |r| <= HeadingSiblingLimit * |hs|
  {
    if hs == [] then []
    else (if IsMenuHeading(hs[0]) then HeadingItems(hs[0]) else []) + HeadingStrategy(hs[1..])
  }

  /** Every item of strategy 2 is well formed and tagged with the stripped
      text of a menu-like heading it followed. */
  lemma {:induction false} HeadingStrategyProps(hs: seq<Heading>)
    ensures forall m :: m in HeadingStrategy(hs) ==>
              && WellFormed(m)
              && exists h :: h in hs && IsMenuHeading(h) && m.section == Some(Strip(h.text))
    decreases |hs|
  {
    if hs != [] {
      ItemsFromProps(HeadingWindow(hs[0]), Some(Strip(hs[0].text)));
      HeadingStrategyProps(hs[1..]);
      forall m | m in HeadingStrategy(hs)
        ensures exists h :: h in hs && IsMenuHeading(h) && m.section == Some(Strip(h.text))
      {
        if m in HeadingStrategy(hs[1..]) {
          var h :| h in hs[1..] && IsMenuHeading(h) && m.section == Some(Strip(h.text));
          assert h in hs;
        } else {
          assert hs[0] in hs;
        }
      }
    }
  }

  // ---------------------------------------------------------------------
  // Strategy 3: up to 15 p/div/li siblings after each heading of a menu div,
  // stopping at an h2/h3/h4 sibling.

  const SectionSiblingTags: set<string> := {"p", "div", "li"}
  const SectionSiblingLimit: nat := 15

  /** The per-heading loop as written, including its break on a heading tag. */
  function SiblingScan(elems: seq<Element>, section: string): (r: seq<MenuItem>)
    ensures |r| <= |elems|
  {
    if elems == [] || elems[0].tag in HeadingTags then []
    else
      var rest := SiblingScan(elems[1..], section);
      var built := BuildItem(elems[0].text, Some(section));
      if built.Some? then [built.value] + rest else rest
  }

  /** The elements strategy 3 inspects after a heading. */
  function SectionWindow(h: Heading): (r: seq<Element>)
    ensures |r| <= SectionSiblingLimit
    ensures forall e :: e in r ==> e in h.siblings && e.tag in SectionSiblingTags
  {
    Take(WithTags(h.siblings, SectionSiblingTags), SectionSiblingLimit)
  }

  function SectionItems(h: Heading): (r: seq<MenuItem>)
    ensures |r| <= SectionSiblingLimit
  {
    SiblingScan(SectionWindow(h), Strip(h.text))
  }

  /** The heading break can never fire: the sibling filter admits only p, div
      and li, so each section yields exactly the priced ones among its first
      fifteen such siblings. */
  lemma BreakUnreachable(h: Heading)
    ensures SectionItems(h) == ItemsFrom(SectionWindow(h), Some(Strip(h.text)))
  {
    var elems := SectionWindow(h);
    assert forall k :: 0 <= k < |elems| ==> elems[k].tag in SectionSiblingTags by {
      forall k | 0 <= k < |elems| ensures elems[k].tag in SectionSiblingTags {
        assert elems[k] in elems;
      }
    }
    ScanWithoutHeadings(elems, Strip(h.text));
  }

  lemma {:induction false} ScanWithoutHeadings(elems: seq<Element>, section: string)
    requires forall k :: 0 <= k < |elems| ==> elems[k].tag in SectionSiblingTags
    ensures SiblingScan(elems, section) == ItemsFrom(elems, Some(section))
    decreases |elems|
  {
    if elems != [] {
      assert elems[0].tag !in HeadingTags;
      ScanWithoutHeadings(elems[1..], section);
    }
  }

  function DivItems(hs: seq<Heading>): (r: seq<MenuItem>)
    ensures |r| <= SectionSiblingLimit * |hs|
  {
    if hs == [] then []
    else (if hs[0].tag in HeadingTags then SectionItems(hs[0]) else []) + DivItems(hs[1..])
  }

  function SectionStrategy(divs: seq<seq<Heading>>): (r: seq<MenuItem>)
  {
    if divs == [] then [] else DivItems(divs[0]) + SectionStrategy(divs[1..])
  }

  /** Every item of a menu div is well formed and tagged with the stripped
      text of one of the div's headings. */
  lemma {:induction false} DivItemsProps(hs: seq<Heading>)
    ensures forall m :: m in DivItems(hs) ==>
              && WellFormed(m)
              && exists h :: h in hs && m.section == Some(Strip(h.text))
    decreases |hs|
  {
    if hs != [] {
      BreakUnreachable(hs[0]);
      ItemsFromProps(SectionWindow(hs[0]), Some(Strip(hs[0].text)));
      DivItemsProps(hs[1..]);
      forall m | m in DivItems(hs)
        ensures exists h :: h in hs && m.section == Some(Strip(h.text))
      {
        if m in DivItems(hs[1..]) {
          var h :| h in hs[1..] && m.section == Some(Strip(h.text));
          assert h in hs;
        } else {
          assert hs[0] in hs;
        }
      }
    }
  }

  lemma {:induction false} SectionStrategyWellFormed(divs: seq<seq<Heading>>)
    ensures forall m :: m in SectionStrategy(divs) ==> WellFormed(m) && m.section.Some?
    decreases |divs|
  {
    if divs != [] {
      DivItemsProps(divs[0]);
      SectionStrategyWellFormed(divs[1..]);
    }
  }

  // ---------------------------------------------------------------------
  // The three strategies together.

  const FewItems: nat := 5

  /** The strategies' results concatenated in order, without deduplication;
      strategy 2 runs only when strategy 1 found fewer than five items. */
  function ExtractMenuItems(page: MenuPage): (r: seq<MenuItem>)
  {
    var first := PricedBlocks(page.blocks);
    var second := if |first| < FewItems then HeadingStrategy(page.headings) else [];
    first + second + SectionStrategy(page.menuDivs)
  }

  /** Strategy 1's items come first and in order, then strategy 2's (only when
      strategy 1 found fewer than five), then strategy 3's; nothing is
      deduplicated, so the count is the sum of the strategies' counts. */
  lemma ExtractLayout(page: MenuPage)
    ensures var r := ExtractMenuItems(page);
            var first := PricedBlocks(page.blocks);
            var rest := if |first| < FewItems then HeadingStrategy(page.headings) + SectionStrategy(page.menuDivs)
                        else SectionStrategy(page.menuDivs);
            && |first| <= |r|
            && r[..|first|] == first
            && r[|first|..] == rest
            && |r| == |first| + |rest|
  {
    var first := PricedBlocks(page.blocks);
    var second := if |first| < FewItems then HeadingStrategy(page.headings) else [];
    var third := SectionStrategy(page.menuDivs);
    ConcatLayout(first, second, third);
  }

  lemma ConcatLayout<T>(a: seq<T>, b: seq<T>, c: seq<T>)
    ensures (a + b + c)[..|a|] == a && (a + b + c)[|a|..] == b + c
  {
    assert a + b + c == a + (b + c);
  }

  /** Every extracted item is well formed: its price is a price token found in
      its description and its flags are the keyword tests on that text. */
  lemma ExtractedItemsWellFormed(page: MenuPage)
    ensures forall m :: m in ExtractMenuItems(page) ==> WellFormed(m)
  {
    ItemsFromProps(WithTags(page.blocks, BlockTags), None);
    HeadingStrategyProps(page.headings);
    SectionStrategyWellFormed(page.menuDivs);
  }

  /** A page none of whose candidate elements holds a `$`-digit pair yields no
      items. */
  lemma UnpricedPageHasNoItems(page: MenuPage)
    requires forall e :: e in page.blocks ==> Unpriced(e.text)
    requires forall h :: h in page.headings ==> forall e :: e in h.siblings ==> Unpriced(e.text)
    requires forall d :: d in page.menuDivs ==> forall h :: h in d ==> forall e :: e in h.siblings ==> Unpriced(e.text)
    ensures ExtractMenuItems(page) == []
  {
    ItemsFromUnpriced(WithTags(page.blocks, BlockTags), None);
    HeadingStrategyUnpriced(page.headings);
    SectionStrategyUnpriced(page.menuDivs);
  }

  lemma {:induction false} HeadingStrategyUnpriced(hs: seq<Heading>)
    requires forall h :: h in hs ==> forall e :: e in h.siblings ==> Unpriced(e.text)
    ensures HeadingStrategy(hs) == []
    decreases |hs|
  {
    if hs != [] {
      var h := hs[0];
      assert h in hs;
      ItemsFromUnpriced(HeadingWindow(h), Some(Strip(h.text)));
      HeadingStrategyUnpriced(hs[1..]);
    }
  }

  lemma {:induction false} SectionStrategyUnpriced(divs: seq<seq<Heading>>)
    requires forall d :: d in divs ==> forall h :: h in d ==> forall e :: e in h.siblings ==> Unpriced(e.text)
    ensures SectionStrategy(divs) == []
    decreases |divs|
  {
    if divs != [] {
      assert divs[0] in divs;
      assert forall d :: d in divs[1..] ==> d in divs;
      DivItemsUnpriced(divs[0]);
      SectionStrategyUnpriced(divs[1..]);
    }
  }

  lemma {:induction false} DivItemsUnpriced(hs: seq<Heading>)
    requires forall h :: h in hs ==> forall e :: e in h.siblings ==> Unpriced(e.text)
    ensures DivItems(hs) == []
    decreases |hs|
  {
    if hs != [] {
      var h := hs[0];
      assert h in hs;
      BreakUnreachable(h);
      ItemsFromUnpriced(SectionWindow(h), Some(Strip(h.text)));
      DivItemsUnpriced(hs[1..]);
    }
  }

  /** Every extracted item that is vegan is also vegetarian. */
  lemma VeganItemsAreVegetarian(page: MenuPage)
    ensures forall m :: m in ExtractMenuItems(page) && m.vegan ==> m.vegetarian
  {
    ExtractedItemsWellFormed(page);
    forall m | m in ExtractMenuItems(page) && m.vegan
      ensures m.vegetarian
    {
      VeganImpliesVegetarian(m.description);
    }
  }
}
