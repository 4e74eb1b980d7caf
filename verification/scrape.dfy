/** One restaurant's scrape and the run summary of the general scraper
    (`scrape_restaurant` and the summary loop, web_scrapping_general.py lines
    220-308). The HTTP exchange is a parameter: a response with a status code
    and the parsed page, or an exception raised while fetching or parsing. */
module Scrape {
  import opened Wrappers
  import opened Text
  import opened PriceScan
  import opened Dom
  import opened Menu
  import opened Contact

  const NoTitle: string := "No title found"
  const StatusPrefix: string := "Failed to fetch page: Status code "
  const ExceptionPrefix: string := "Exception: "

  datatype Restaurant = Restaurant(name: string, url: string)

  /** What `requests.get` and parsing produce: a response (its status code, the
      `<title>` text when the page has one, and what the menu and contact
      extractors read), or an exception with its message. */
  datatype Response =
    | Fetched(status: nat, title: Option<string>, menu: MenuPage, contact: ContactPage)
    | Raised(message: string)

  /** Price range in cents; 0/0 when no price was collected. */
  datatype PriceRange = PriceRange(min: nat, max: nat)

  datatype DietaryCounts = DietaryCounts(vegetarian: nat, vegan: nat, glutenFree: nat, spicy: nat)

  datatype RestaurantRecord = RestaurantRecord(
    name: string,
    url: string,
    title: string,
    menuItems: seq<MenuItem>,
    contact: ContactInfo,
    dietary: DietaryCounts,
    itemCount: nat,
    priceRange: PriceRange)

  datatype ScrapeResult = Scraped(record: RestaurantRecord) | Failed(name: string, url: string, error: string)

  // ---------------------------------------------------------------------
  // Prices

  /** Python's `float(s)` on the two shapes a price takes once its `$` is
      removed, in cents: digits, or digits `.` two digits. Any other text
      reads as a failed conversion. */
  function ParseAmount(s: string): (r: Option<nat>)
    ensures r.Some? ==> |s| > 0 && IsDigit(s[0])
  {
    if |s| > 0 && AllDigits(s) then Some(DecimalValue(s) * 100)
    else if |s| >= 4 && AllDigits(s[..|s| - 3]) && s[|s| - 3] == '.' && IsDigit(s[|s| - 2]) && IsDigit(s[|s| - 1]) then
      Some(DecimalValue(s[..|s| - 3]) * 100 + DecimalValue(s[|s| - 2..]))
    else None
  }

  /** The price filter: the price is not the sentinel and holds a `$`. */
  predicate HasDollarPrice(m: MenuItem) {
    m.price != NotFound && Contains(m.price, "$")
  }

  /** The list comprehension over the items: each price that passes the filter
      is converted after removing every `$`; None when a conversion fails
      (Python raises `ValueError`, which the scrape turns into an error). */
  function CollectPrices(items: seq<MenuItem>): (r: Option<seq<nat>>)
    ensures r.Some? ==> |r.value| <= |items|
  {
    if items == [] then Some([])
    else
      var rest := CollectPrices(items[1..]);
      if !HasDollarPrice(items[0]) then rest
      else
        var v := ParseAmount(ReplaceAll(items[0].price, "$"));
        if v.None? || rest.None? then None else Some([v.value] + rest.value)
  }

  /** Past its first character a price token holds digits and at most a `.`,
      never a `$`. */
  lemma TokenTailHasNoDollar(t: string)
    requires IsPriceToken(t)
    ensures !Contains(t[1..], "$")
  {
    var u := t[1..];
    forall k | 0 <= k < |u| ensures u[k] != '$' {
      if !AllDigits(u) && k < |u| - 3 {
        assert u[k] == t[1..|t| - 3][k];
      }
    }
    forall j | 0 <= j && j + 1 <= |u| ensures !OccursAt(u, "$", j) {
      assert u[j..j + 1][0] == u[j];
    }
  }

  /** A price token holds exactly one `$`, at its start, so removing every `$`
      leaves the amount. */
  lemma TokenDollarRemoved(t: string)
    requires IsPriceToken(t)
    ensures Contains(t, "$")
    ensures ReplaceAll(t, "$") == t[1..]
  {
    assert OccursAt(t, "$", 0);
    assert t[..1] == "$";
    TokenTailHasNoDollar(t);
    ReplaceAllSpec(t[1..], "$");
  }

  /** The amount of a price token converts to the token's cents. */
  lemma TokenAmount(t: string)
    requires IsPriceToken(t)
    ensures ParseAmount(t[1..]) == Some(PriceCents(t))
  {
    var u := t[1..];
    if !AllDigits(u) {
      assert u[..|u| - 3] == t[1..|t| - 3];
      assert u[|u| - 2..] == t[|t| - 2..];
    }
  }

  /** An item priced with a price token passes the filter and its price
      converts to the token's cents. */
  lemma TokenPriceConverts(m: MenuItem)
    requires IsPriceToken(m.price)
    ensures HasDollarPrice(m)
    ensures ParseAmount(ReplaceAll(m.price, "$")) == Some(PriceCents(m.price))
  {
    TokenDollarRemoved(m.price);
    TokenAmount(m.price);
    assert m.price[0] == '$' && NotFound[0] != '$';
  }

  /** When every price is a price token, every price passes the filter and
      converts: the conversion never fails and yields each item's price in
      cents, in order. */
  lemma {:induction false} CollectPriceTokens(items: seq<MenuItem>)
    requires forall k :: 0 <= k < |items| ==> IsPriceToken(items[k].price)
    ensures CollectPrices(items).Some?
    ensures |CollectPrices(items).value| == |items|
    ensures forall k :: 0 <= k < |items| ==> CollectPrices(items).value[k] == PriceCents(items[k].price)
    decreases |items|
  {
    if items != [] {
      assert forall k :: 1 <= k < |items| ==> items[k] == items[1..][k - 1];
      CollectPriceTokens(items[1..]);
      CollectHead(items);
      var rest := CollectPrices(items[1..]).value;
      assert forall k :: 1 <= k < |items| ==> CollectPrices(items).value[k] == rest[k - 1];
    }
  }

  /** One conversion step: a price token at the head is converted and put in
      front of the rest's amounts. */
  lemma CollectHead(items: seq<MenuItem>)
    requires |items| > 0 && IsPriceToken(items[0].price) && CollectPrices(items[1..]).Some?
    ensures CollectPrices(items) == Some([PriceCents(items[0].price)] + CollectPrices(items[1..]).value)
  {
    TokenPriceConverts(items[0]);
  }

  /** Smallest element. */
  function MinOf(xs: seq<nat>): (m: nat)
    requires |xs| > 0
    ensures m in xs
    ensures forall k :: 0 <= k < |xs| ==> m <= xs[k]
  {
    if |xs| == 1 then xs[0]
    else
      var rest := MinOf(xs[1..]);
      assert forall k :: 1 <= k < |xs| ==> xs[k] == xs[1..][k - 1];
      if xs[0] <= rest then xs[0] else rest
  }

  /** Largest element. */
  function MaxOf(xs: seq<nat>): (m: nat)
    requires |xs| > 0
    ensures m in xs
    ensures forall k :: 0 <= k < |xs| ==> xs[k] <= m
  {
    if |xs| == 1 then xs[0]
    else
      var rest := MaxOf(xs[1..]);
      assert forall k :: 1 <= k < |xs| ==> xs[k] == xs[1..][k - 1];
      if xs[0] >= rest then xs[0] else rest
  }

  /** `min(prices) if prices else 0` and likewise for the maximum: both bounds
      are collected prices and every collected price lies between them. */
  function RangeOf(prices: seq<nat>): (r: PriceRange)
    ensures prices == [] ==> r == PriceRange(0, 0)
    ensures prices != [] ==> r.min in prices && r.max in prices
    ensures forall k :: 0 <= k < |prices| ==> r.min <= prices[k] <= r.max
    ensures r.min <= r.max
  {
    if prices == [] then PriceRange(0, 0) else PriceRange(MinOf(prices), MaxOf(prices))
  }

  // ---------------------------------------------------------------------
  // Dietary counts

  /** `sum(1 for item in items if flag(item))`: how many items carry the
      flag; none exactly when no item carries it, all exactly when every item
      does. */
  function CountWhere(items: seq<MenuItem>, flag: MenuItem -> bool): (n: nat)
    ensures n <= |items|
    ensures n == 0 <==> forall k :: 0 <= k < |items| ==> !flag(items[k])
    ensures n == |items| <==> forall k :: 0 <= k < |items| ==> flag(items[k])
    decreases |items|
  {
    if items == [] then 0
    else
      assert forall k :: 1 <= k < |items| ==> items[k] == items[1..][k - 1];
      (if flag(items[0]) then 1 else 0) + CountWhere(items[1..], flag)
  }

  /** Counting a concatenation adds the counts of its parts. */
  lemma {:induction false} CountWhereAppend(a: seq<MenuItem>, b: seq<MenuItem>, flag: MenuItem -> bool)
    ensures CountWhere(a + b, flag) == CountWhere(a, flag) + CountWhere(b, flag)
    decreases |a|
  {
    if a == [] {
      assert a + b == b;
    } else {
      assert (a + b)[0] == a[0];
      assert (a + b)[1..] == a[1..] + b;
      CountWhereAppend(a[1..], b, flag);
    }
  }

  /** One item counts one exactly when it carries the flag. */
  lemma CountWhereSingle(x: MenuItem, flag: MenuItem -> bool)
    ensures CountWhere([x], flag) == (if flag(x) then 1 else 0)
  {
    assert [x][1..] == [];
  }

  /** A flag implied by another is counted at least as often. */
  lemma {:induction false} CountWhereMonotone(items: seq<MenuItem>, p: MenuItem -> bool, q: MenuItem -> bool)
    requires forall k :: 0 <= k < |items| && p(items[k]) ==> q(items[k])
    ensures CountWhere(items, p) <= CountWhere(items, q)
    decreases |items|
  {
    if items != [] {
      assert forall k :: 1 <= k < |items| ==> items[k] == items[1..][k - 1];
      CountWhereMonotone(items[1..], p, q);
    }
  }

  /** The four flags `dietary_options` counts. */
  predicate VegetarianFlag(m: MenuItem) { m.vegetarian }
  predicate VeganFlag(m: MenuItem) { m.vegan }
  predicate GlutenFreeFlag(m: MenuItem) { m.glutenFree }
  predicate SpicyFlag(m: MenuItem) { m.spicy }

  function Dietary(items: seq<MenuItem>): DietaryCounts {
    DietaryCounts(CountWhere(items, VegetarianFlag), CountWhere(items, VeganFlag),
                  CountWhere(items, GlutenFreeFlag), CountWhere(items, SpicyFlag))
  }

  /** When every vegan item is vegetarian, there are no more vegan items than
      vegetarian ones. */
  lemma VeganCountBounded(items: seq<MenuItem>)
    requires forall k :: 0 <= k < |items| && items[k].vegan ==> items[k].vegetarian
    ensures Dietary(items).vegan <= Dietary(items).vegetarian
  {
    CountWhereMonotone(items, VeganFlag, VegetarianFlag);
  }

  // ---------------------------------------------------------------------
  // One restaurant

  function Title(t: Option<string>): (r: string)
    ensures t.Some? ==> r == t.value
    ensures t.None? ==> r == NoTitle
  {
    t.GetOr(NoTitle)
  }

  /** The record built from the extracted items and contact information, or
      the error the conversion of a price raises. */
  function RecordFrom(r: Restaurant, title: Option<string>, items: seq<MenuItem>, contact: ContactInfo): ScrapeResult {
    var prices := CollectPrices(items);
    if prices.None? then
      Failed(r.name, r.url, ExceptionPrefix + "could not convert string to float")
    else
      Scraped(RestaurantRecord(r.name, r.url, Title(title), items, contact,
                               Dietary(items), |items|, RangeOf(prices.value)))
  }

  /** The page fetched with status 200. */
  function ScrapePage(r: Restaurant, title: Option<string>, menu: MenuPage, contact: ContactPage): ScrapeResult {
    RecordFrom(r, title, ExtractMenuItems(menu), ExtractContactInfo(contact))
  }

  function ScrapeRestaurant(r: Restaurant, resp: Response): ScrapeResult {
    match resp
    case Raised(msg) => Failed(r.name, r.url, ExceptionPrefix + msg)
    case Fetched(status, title, menu, contact) =>
      if status == 200 then ScrapePage(r, title, menu, contact)
      else Failed(r.name, r.url, StatusPrefix + NatToString(status))
  }

  /** A response other than status 200 gives an error naming the
      restaurant, whose text is the status prefix followed by the status code
      in decimal; an exception gives an error carrying its message. */
  lemma ScrapeErrorSpec(r: Restaurant, resp: Response)
    ensures var s := ScrapeRestaurant(r, resp);
            && (s.Scraped? ==> resp.Fetched? && resp.status == 200)
            && (s.Failed? ==> s.name == r.name && s.url == r.url)
            && (resp.Raised? ==> s.error == ExceptionPrefix + resp.message)
            && (resp.Fetched? && resp.status != 200 ==>
                  && StartsWith(s.error, StatusPrefix)
                  && AllDigits(s.error[|StatusPrefix|..])
                  && DecimalValue(s.error[|StatusPrefix|..]) == resp.status)
  {
    if resp.Fetched? && resp.status != 200 {
      var e := StatusPrefix + NatToString(resp.status);
      assert e[..|StatusPrefix|] == StatusPrefix;
      assert e[|StatusPrefix|..] == NatToString(resp.status);
      NatToStringRoundTrip(resp.status);
    }
  }

  /** Items whose prices are all price tokens and whose vegan items are all
      vegetarian always yield a record: the price conversion cannot fail. The
      record carries the restaurant's name and URL, the items and their count,
      the contact information, the dietary counts of the items (the vegan
      count bounded by the vegetarian count), and a price range whose bounds
      are prices of items and enclose every item's price. */
  lemma RecordFromSpec(r: Restaurant, title: Option<string>, items: seq<MenuItem>, contact: ContactInfo)
    requires forall k :: 0 <= k < |items| ==> IsPriceToken(items[k].price)
    requires forall k :: 0 <= k < |items| && items[k].vegan ==> items[k].vegetarian
    ensures var s := RecordFrom(r, title, items, contact);
            && s.Scraped?
            && s.record.name == r.name && s.record.url == r.url
            && s.record.title == Title(title)
            && s.record.menuItems == items
            && s.record.itemCount == |items|
            && s.record.contact == contact
            && s.record.dietary == Dietary(items)
            && s.record.dietary.vegan <= s.record.dietary.vegetarian
            && (forall k :: 0 <= k < |items| ==>
                  s.record.priceRange.min <= PriceCents(items[k].price) <= s.record.priceRange.max)
            && (items != [] ==>
                  && (exists k :: 0 <= k < |items| && s.record.priceRange.min == PriceCents(items[k].price))
                  && (exists k :: 0 <= k < |items| && s.record.priceRange.max == PriceCents(items[k].price)))
            && (items == [] ==> s.record.priceRange == PriceRange(0, 0))
  {
    CollectPriceTokens(items);
    VeganCountBounded(items);
    ItemsPriceRange(items);
  }

  /** The range of the items' converted prices is attained by items and
      encloses every item's price. */
  lemma ItemsPriceRange(items: seq<MenuItem>)
    requires forall k :: 0 <= k < |items| ==> IsPriceToken(items[k].price)
    ensures CollectPrices(items).Some?
    ensures var range := RangeOf(CollectPrices(items).value);
            && (forall k :: 0 <= k < |items| ==> range.min <= PriceCents(items[k].price) <= range.max)
            && (items != [] ==>
                  && (exists k :: 0 <= k < |items| && range.min == PriceCents(items[k].price))
                  && (exists k :: 0 <= k < |items| && range.max == PriceCents(items[k].price)))
            && (items == [] ==> range == PriceRange(0, 0))
  {
    CollectPriceTokens(items);
    var prices := CollectPrices(items).value;
    var range := RangeOf(prices);
    assert forall k :: 0 <= k < |items| ==> range.min <= prices[k] <= range.max;
    if items != [] {
      var lo :| 0 <= lo < |prices| && prices[lo] == range.min;
      var hi :| 0 <= hi < |prices| && prices[hi] == range.max;
      assert range.min == PriceCents(items[lo].price);
      assert range.max == PriceCents(items[hi].price);
    }
  }

  /** A page fetched with status 200 always yields a record of its extracted
      items and contact information. */
  lemma ScrapePageSpec(r: Restaurant, title: Option<string>, menu: MenuPage, contact: ContactPage)
    ensures var s := ScrapePage(r, title, menu, contact);
            && s.Scraped?
            && s.record.menuItems == ExtractMenuItems(menu)
            && s.record.contact == ExtractContactInfo(contact)
            && s.record.dietary.vegan <= s.record.dietary.vegetarian
  {
    var items := ExtractMenuItems(menu);
    ExtractedItemsWellFormed(menu);
    VeganItemsAreVegetarian(menu);
    forall k | 0 <= k < |items|
      ensures IsPriceToken(items[k].price) && (items[k].vegan ==> items[k].vegetarian)
    {
      assert items[k] in items;
    }
    RecordFromSpec(r, title, items, ExtractContactInfo(contact));
  }

  /** A record is produced exactly for a status-200 response. */
  lemma ScrapedIffOk(r: Restaurant, resp: Response)
    ensures ScrapeRestaurant(r, resp).Scraped? <==> resp.Fetched? && resp.status == 200
  {
    if resp.Fetched? && resp.status == 200 {
      ScrapePageSpec(r, resp.title, resp.menu, resp.contact);
    }
  }

  /** The scrape loop: one result per restaurant, in order. */
  function ScrapeAll(rs: seq<Restaurant>, responses: seq<Response>): (r: seq<ScrapeResult>)
    requires |responses| == |rs|
    ensures |r| == |rs|
    ensures forall k :: 0 <= k < |rs| ==> r[k] == ScrapeRestaurant(rs[k], responses[k])
  {
    seq(|rs|, k requires 0 <= k < |rs| => ScrapeRestaurant(rs[k], responses[k]))
  }

  // ---------------------------------------------------------------------
  // Summary

  /** One row of the summary table. The price range is absent ("Not found")
      when the maximum is 0; `contactFound` is the check mark. */
  datatype SummaryRow =
    | ErrorRow(name: string, url: string, error: string)
    | SuccessRow(name: string, url: string, menuItemsFound: nat, priceRange: Option<PriceRange>,
                 vegetarianItems: nat, contactFound: bool)

  function SummaryOf(s: ScrapeResult): SummaryRow {
    match s
    case Failed(name, url, error) => ErrorRow(name, url, error)
    case Scraped(rec) =>
      SuccessRow(rec.name, rec.url, rec.itemCount,
                 if rec.priceRange.max > 0 then Some(rec.priceRange) else None,
                 rec.dietary.vegetarian,
                 rec.contact.address != NotFound || rec.contact.phone != NotFound)
  }

  function Summary(results: seq<ScrapeResult>): (rows: seq<SummaryRow>)
    ensures |rows| == |results|
  {
    if results == [] then [] else [SummaryOf(results[0])] + Summary(results[1..])
  }

  /** The summary has one row per result, in order: an error row exactly for a
      failed scrape, carrying its name, URL and error; a success row carrying
      the record's item count and vegetarian count, a price range exactly when
      the maximum price is positive, and a check mark exactly when the address
      or the phone was found. */
  lemma {:induction false} SummarySpec(results: seq<ScrapeResult>, k: nat)
    requires k < |results|
    ensures var row := Summary(results)[k];
            var s := results[k];
            && (row.ErrorRow? <==> s.Failed?)
            && (s.Failed? ==> row == ErrorRow(s.name, s.url, s.error))
            && (s.Scraped? ==>
                  && row.name == s.record.name && row.url == s.record.url
                  && row.menuItemsFound == s.record.itemCount
                  && row.vegetarianItems == s.record.dietary.vegetarian
                  && (row.priceRange.Some? <==> s.record.priceRange.max > 0)
                  && (row.priceRange.Some? ==> row.priceRange.value == s.record.priceRange)
                  && (row.contactFound <==> s.record.contact.address != NotFound || s.record.contact.phone != NotFound))
    decreases k
  {
    if k > 0 {
      SummarySpec(results[1..], k - 1);
    }
  }
}
