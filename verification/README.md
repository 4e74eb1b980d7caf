# Restaurant scraper core, modelled in Dafny

This project models the data-extraction core of a small restaurant-scraping
system written in Python:

- the **general scraper** (`web_scrapping_general.py`):
  - `extract_menu_items` finds dollar prices with the pattern
    `\$\d+(?:\.\d{2})?` and builds menu items with three strategies:
    1. priced `p`/`li`/`div` elements;
    2. up to ten siblings after each menu-like heading, used only when
       strategy 1 found fewer than five items;
    3. up to fifteen siblings after each heading inside a "menu" `div`.
  - `extract_contact_info` fills a four-field record that starts at the
    "Not found" sentinel. It first reads the JSON-LD business blocks, then runs
    keyword heuristics (street test, phone pattern, `tel:`/`mailto:` links,
    weekday test).
  - `scrape_restaurant` turns one HTTP response into a record or an error. The
    record holds the price range, the dietary counts and the item count. The
    script then builds one summary row per restaurant.
- the **site scraper** (`webscrapping.py`):
  - a per-card menu parser with the rupee pattern `(?:price|₹|Rs\.?)\s*([\d,]+)`;
  - a contact extractor that collects addresses, distinct phone numbers and
    `mailto:` addresses.
- the **knowledge base** (`knowledge_base.py`): renders each scraped record as
  one plain-text document.

The HTML tree is abstracted away. Each extractor receives the elements it
selects, in document order, each reduced to its tag name and text (`Dom`,
`Menu.MenuPage`, `Contact.ContactPage`, `SiteScraper.Card`). A tag that
`find` returns is true in a boolean test even when it is empty, so `if tag:`
asks only whether the tag was found; the site scraper's optional tags are
`Option` values. The network exchange is a parameter, `Scrape.Response`. The regular
expressions are written out as scanners that follow Python's leftmost,
backtracking semantics:

- `PriceScan`: the dollar-price pattern;
- `PhoneScan`: the contact phone pattern;
- `Contact.StreetFrom`: the street test;
- `SiteScraper.RupeeAt`/`RupeeSearch`: the rupee pattern;
- `SiteScraper.PhoneTokenLen`: the site phone pattern.

Module layout:

- `Wrappers`: `Option` and a leftmost-`Some` search.
- `Text`: Python string primitives (`strip`, ASCII `lower`, `in`,
  `replace(x, '')`, `startswith`, `join`, `str(n)`).
- `Dom`: elements, tag filtering and list slicing.
- `PriceScan`, `Menu`, `PhoneScan`, `Contact`, `Scrape`: the general scraper.
- `SiteScraper`: `webscrapping.py`.
- `KnowledgeBase`: the document template.

In the third strategy of `extract_menu_items`, the loop is meant to stop at
the next heading (`if item_elem.name in ['h2', 'h3', 'h4']: break`,
web_scrapping_general.py:94-96). That `break` can never fire: the siblings
are already filtered to `p`, `div` and `li`. `Menu.SiblingScan` models the
loop as written, with its break. `Menu.BreakUnreachable` proves that the
result equals the plain item scan of the filtered window.

## Model

| member | source | states |
|---|---|---|
| Text.StripSpec | web_scrapping_general.py:33 | `strip()` keeps a slice of the text with only whitespace removed before and after it |
| Text.Strip | web_scrapping_general.py:33 | the stripped text is no longer than the input, and it begins and ends with a non-space character |
| Text.StripIdempotent | web_scrapping_general.py:41 | stripping an already stripped text changes nothing, so the repeated `.strip()` in the cleaning loop is stable |
| Text.ReplaceAllSpec | web_scrapping_general.py:41 | `replace(x, '')` returns the text unchanged when `x` does not occur; otherwise it removes at least `len(x)` characters; every kept character comes from the text |
| Text.ReplaceAllStep | web_scrapping_general.py:41 | the whole result: the text before the leftmost occurrence, then the rest after that occurrence cleaned the same way; with the unchanged case this fixes `replace(x, '')` completely |
| Text.ReplaceAllChangesIff | web_scrapping_general.py:41 | for a non-empty target, the replacement changes the text exactly when the target occurs in it |
| Text.Contains | web_scrapping_general.py:49 | Python's `in` on strings holds exactly when the needle occurs at some index |
| Text.Lower | web_scrapping_general.py:48 | `lower()` keeps the length and lower-cases each ASCII letter in place |
| Text.JoinSnoc | web_scrapping_general.py:151 | `", ".join` of one more part is the previous join, then the separator, then that part |
| Text.NatToStringRoundTrip | web_scrapping_general.py:276 | the decimal rendering of a status code reads back as the same number |
| Dom.WithTags | web_scrapping_general.py:61 | the tag filter keeps exactly the elements whose tag is in the list, in order |
| Dom.WithTagsAppend | web_scrapping_general.py:61 | filtering two lists one after the other is filtering each and concatenating, so document order and repeated elements are kept |
| Dom.WithTagsSingle | web_scrapping_general.py:61 | one element is kept exactly when its tag is in the list |
| Dom.Take | web_scrapping_general.py:62 | `xs[:n]` is the whole list when it has at most `n` elements, and exactly its first `n` elements otherwise |
| PriceScan.MatchLen | web_scrapping_general.py:26 | the pattern matches at an index exactly when a `$` there is directly followed by a digit, and the matched text is a price token |
| PriceScan.MatchLenMaximal | web_scrapping_general.py:26 | the scanner is greedy: no longer price token starts at the same index |
| PriceScan.FindPrices | web_scrapping_general.py:35 | every `findall` result is a price token occurring in the text, and there is one exactly when some `$` is directly followed by a digit |
| PriceScan.FindFromStep | web_scrapping_general.py:35 | the whole `findall` list: the longest match at the leftmost `$`-digit position, followed by the matches after its end; empty when there is no such position |
| PriceScan.SkipToFirst | web_scrapping_general.py:35 | positions where no `$`-digit pair starts contribute no match |
| PriceScan.FirstPriceLeftmostLongest | web_scrapping_general.py:35-45 | `prices[0]` occurs at the leftmost `$`-digit position and is the longest price token starting there |
| Menu.CleanName | web_scrapping_general.py:39-41 | the cleaned name is never longer than the text; it is the text itself when there is no price, and stripped otherwise |
| Menu.VeganImpliesVegetarian | web_scrapping_general.py:48-49 | text the vegan test accepts is always accepted by the vegetarian test, because "vegan" contains "veg" |
| Menu.BuildItemSpec | web_scrapping_general.py:33-52 | an item is built exactly when the stripped text has a `$` followed by a digit; its description is the stripped text, its price is the first match, its name is the cleaned text, and its flags are the keyword tests on that text |
| Menu.ItemsFromProps | web_scrapping_general.py:32-52 | every item built from a list of elements is well formed and carries the given section |
| Menu.ItemsFromAppend | web_scrapping_general.py:32-52 | the items of two lists of elements, one after the other, are the items of the first list followed by those of the second; document order is kept |
| Menu.ItemsFromUnpriced | web_scrapping_general.py:35-37 | elements with no `$`-digit pair yield no items |
| Menu.PricedBlocks | web_scrapping_general.py:29-52 | strategy 1 yields at most one item per candidate element |
| Menu.HeadingWindow | web_scrapping_general.py:61-62 | strategy 2 inspects at most ten siblings of the heading, each a `p`, `div`, `li` or `span` |
| Menu.HeadingStrategy | web_scrapping_general.py:57-79 | strategy 2 yields at most ten items per heading |
| Menu.HeadingStrategyProps | web_scrapping_general.py:57-79 | every strategy-2 item is well formed, and its section is the stripped text of a menu-like heading |
| Menu.SectionWindow | web_scrapping_general.py:89-90 | strategy 3 inspects at most fifteen siblings of the heading, each a `p`, `div` or `li` |
| Menu.BreakUnreachable | web_scrapping_general.py:89-96 | the sibling loop with its heading `break` gives the same items as the plain scan of the filtered window |
| Menu.ScanWithoutHeadings | web_scrapping_general.py:90-98 | over siblings none of which is a heading, the loop with the `break` builds exactly the priced items |
| Menu.DivItemsProps | web_scrapping_general.py:85-112 | every item of a menu `div` is well formed, and its section is the stripped text of one of that div's headings |
| Menu.SectionStrategyWellFormed | web_scrapping_general.py:82-112 | every strategy-3 item is well formed and has a section |
| Menu.ExtractLayout | web_scrapping_general.py:17-114 | the result is strategy 1's items, then strategy 2's (only when strategy 1 found fewer than five), then strategy 3's, with nothing deduplicated |
| Menu.ExtractedItemsWellFormed | web_scrapping_general.py:17-114 | every extracted item's price is a price token found in its stripped description, and its flags are the keyword tests on that description |
| Menu.UnpricedPageHasNoItems | web_scrapping_general.py:17-114 | a page with no `$`-digit pair in any candidate element yields no items |
| Menu.VeganItemsAreVegetarian | web_scrapping_general.py:48-49 | every extracted vegan item is also vegetarian |
| Contact.InitialContact | web_scrapping_general.py:118-123 | every field starts at the "Not found" sentinel |
| Contact.FormatAddress | web_scrapping_general.py:140 | a structured address always contains a comma |
| Contact.StructuredAddressIsNotSentinel | web_scrapping_general.py:140 | a structured address is never the sentinel, so once a business block carries an address the address heuristics are skipped |
| Contact.FormatHoursList | web_scrapping_general.py:146-150 | one "day: opens-closes" string per specification, in order |
| Contact.HoursTextShape | web_scrapping_general.py:145-151 | one specification renders as "day: opens-closes"; each further one adds ", " and its own rendering |
| Contact.ApplyNode | web_scrapping_general.py:137-151 | a Restaurant/LocalBusiness node overwrites exactly the fields it carries; any other node changes nothing; the email is never set from JSON-LD |
| Contact.ApplyScriptsSnoc | web_scrapping_general.py:132-171 | processing one more script block means applying that block to the result of the earlier blocks, so later blocks override earlier ones |
| Contact.LooksLikeStreetIff | web_scrapping_general.py:181 | the street test succeeds exactly when, in the lower-cased text, a digit is followed on the same line by a street word |
| Contact.StreetFromSpec | web_scrapping_general.py:181 | from any index, the left-to-right scan finds a match exactly when a digit is followed on the same line by a keyword at or after that index |
| Contact.FirstHit | web_scrapping_general.py:177-183 | the inner loop finds nothing exactly when no candidate element hits for the keyword |
| Contact.FirstHitAt | web_scrapping_general.py:177-183 | the inner loop stops at the first element that hits, and that element's contribution is the keyword's result |
| Contact.LaterKeywordOverwrites | web_scrapping_general.py:176-183 | the `break` only leaves the inner loop, so the last keyword with a hit decides the field |
| Contact.KeywordPassNoHit | web_scrapping_general.py:176-183 | when no keyword hits, the field keeps its value |
| PhoneScan.PhoneAt | web_scrapping_general.py:187 | a match at an index is 10 to 18 characters long, lies inside the text and ends in four digits |
| PhoneScan.PhoneAtSound | web_scrapping_general.py:187 | a match at an index is text the pattern `(?:\+\d{1,2}\s)?\(?\d{3}\)?[\s.-]?\d{3}[\s.-]?\d{4}` accepts (`PhoneScan.IsPhoneMatch`) |
| PhoneScan.PhoneAtComplete | web_scrapping_general.py:187 | when any text starting at an index is accepted by the pattern, the matcher finds a match there |
| PhoneScan.PhoneAtNone | web_scrapping_general.py:187 | there is no match at an index exactly when no text starting there is accepted by the pattern |
| PhoneScan.SearchFrom | web_scrapping_general.py:191 | the search returns the leftmost position at which the phone pattern matches, and none exactly when it matches nowhere |
| PhoneScan.SearchPhone | web_scrapping_general.py:191-193 | `match.group(0)` is accepted by the pattern, occurs in the text at the leftmost matching position, is 10 to 18 characters long and ends in four digits; there is no match exactly when the pattern matches nowhere |
| PhoneScan.SearchPhoneNone | web_scrapping_general.py:191 | `re.search` finds nothing exactly when no part of the text is accepted by the pattern |
| Contact.FirstWithPrefix | web_scrapping_general.py:197-204 | the first link whose href starts with the prefix, in document order; none exactly when no href has it |
| Contact.TelLinkOverridesPhone | web_scrapping_general.py:186-199 | with no structured phone, a `tel:` link wins over the keyword pass; without such a link, the keyword pass decides |
| Contact.EmailFromFirstMailto | web_scrapping_general.py:202-204 | the email is the first `mailto:` href with "mailto:" removed, or the sentinel when there is none |
| Contact.StructuredFieldsWin | web_scrapping_general.py:173-216 | an address, phone or hours value set from JSON-LD is never changed by the heuristics |
| Contact.AddressFromHeuristics | web_scrapping_general.py:173-183 | with no structured address, the address is what the keyword pass over the address words yields |
| Contact.NoEvidenceKeepsSentinels | web_scrapping_general.py:117-217 | a page with no JSON-LD, no links and no keyword hits leaves every field at the sentinel |
| Scrape.TokenDollarRemoved | web_scrapping_general.py:248 | a price token holds a `$`, and removing every `$` leaves exactly the text after its first character |
| Scrape.TokenAmount | web_scrapping_general.py:248 | the amount after the `$` converts to the token's value in cents |
| Scrape.TokenPriceConverts | web_scrapping_general.py:248-249 | an item priced with a price token passes the filter, and its price converts to the token's cents |
| Scrape.CollectPriceTokens | web_scrapping_general.py:248-249 | when every price is a price token, the list comprehension never raises and yields each item's price in cents, in order |
| Scrape.MinOf | web_scrapping_general.py:251 | `min` is one of the prices and no price is smaller |
| Scrape.MaxOf | web_scrapping_general.py:252 | `max` is one of the prices and no price is larger |
| Scrape.RangeOf | web_scrapping_general.py:251-252 | with no prices the range is 0 to 0; otherwise both bounds are collected prices and every price lies between them |
| Scrape.CountWhere | web_scrapping_general.py:262-265 | `sum(1 for item in items if flag)` is at most the number of items; it is 0 exactly when no item has the flag and the number of items exactly when every item has it |
| Scrape.CountWhereAppend | web_scrapping_general.py:262-265 | the count over two lists of items, one after the other, is the sum of their counts |
| Scrape.CountWhereSingle | web_scrapping_general.py:262-265 | one item counts 1 when it has the flag and 0 otherwise |
| Scrape.CountWhereMonotone | web_scrapping_general.py:262-265 | when every item with one flag also has a second, the first count is at most the second |
| Scrape.VeganCountBounded | web_scrapping_general.py:262-263 | when every vegan item is vegetarian, the vegan count is at most the vegetarian count |
| Scrape.ScrapeErrorSpec | web_scrapping_general.py:234-279 | a record is produced only for status 200; an error names the restaurant; an exception's message follows "Exception: "; any other status follows "Failed to fetch page: Status code " in decimal |
| Scrape.ScrapedIffOk | web_scrapping_general.py:234-279 | a record is produced exactly for a status-200 response |
| Scrape.RecordFromSpec | web_scrapping_general.py:247-274 | items priced with price tokens always yield a record with the name, URL, items, count and contact, the four dietary counts of its items (the vegan count bounded by the vegetarian count), and a price range whose minimum and maximum are the prices of some items and enclose every price (0 to 0 for no items) |
| Scrape.ItemsPriceRange | web_scrapping_general.py:248-252 | the converted prices' minimum and maximum are each some item's price and enclose every item's price; 0 to 0 for no items |
| Scrape.ScrapePageSpec | web_scrapping_general.py:234-274 | a page fetched with status 200 always yields a record of its extracted items and contact information; price conversion never fails there |
| Scrape.ScrapeAll | web_scrapping_general.py:282-285 | one result per restaurant, in input order |
| Scrape.SummarySpec | web_scrapping_general.py:290-308 | an error row exactly for a failed scrape; a success row carries the item and vegetarian counts, a price range exactly when the maximum is positive, and a check mark exactly when the address or phone was found |
| SiteScraper.AmountRun | webscrapping.py:9 | the captured group is the maximal run of digits and commas |
| SiteScraper.RupeeAtSpec | webscrapping.py:9 | the pattern matches at an index exactly when one of the keyword alternatives leads to a match there |
| SiteScraper.KeywordThenOtherChar | webscrapping.py:9 | a keyword followed by a character that is neither whitespace nor a digit or comma (as in "Price: 250") gives no match |
| SiteScraper.RsDotMatch | webscrapping.py:9 | "Rs." in any case, then any whitespace, then a digit or comma, matches with the group starting after the whitespace: the dot is consumed and not captured |
| SiteScraper.RupeeSearchFound | webscrapping.py:38-40 | a captured amount is a non-empty run of digits and commas taken from the searched text |
| SiteScraper.RupeeSearchLeftmost | webscrapping.py:38-47 | the amount is the group of the match at the leftmost position where the pattern matches, that is the maximal run of digits and commas where the group starts; there is none exactly when the pattern matches nowhere |
| SiteScraper.CardName | webscrapping.py:24-25 | the name is the text of the first tag found among h3, h4 and strong, even an empty one, else "Unnamed Item" |
| SiteScraper.CardPriceShape | webscrapping.py:28-47 | the price is "₹" followed by an amount found in the found price tag's text (or in the card text when no price tag is found), or "Price not found" |
| SiteScraper.TagPrecedence | webscrapping.py:31-47 | with a found price tag, the card text is never searched, so a tag without a match gives "Price not found" |
| SiteScraper.EmptyPriceTag | webscrapping.py:31-47 | a found price tag with no text gives "Price not found", whatever the rest of the card says |
| SiteScraper.ImageUrl | webscrapping.py:50-57 | the first non-empty of data-src, src and data-lazy; a protocol-relative URL gets "https:" in front |
| SiteScraper.CardItem | webscrapping.py:21-68 | a card yields an item exactly when it has an `img`; the item carries the card's name, price, category, image URL and text |
| SiteScraper.WithImage | webscrapping.py:50-65 | the cards with an image, each kept, in order |
| SiteScraper.WithImageAppend | webscrapping.py:21-68 | the cards with an image of two runs of cards are those of the first run followed by those of the second, so document order and repeated cards are kept |
| SiteScraper.WithImageSingle | webscrapping.py:50-65 | one card is kept exactly when it has an image |
| SiteScraper.CardItemsSpec | webscrapping.py:19-68 | the section's items are those of its cards with an image, one per card and in order |
| SiteScraper.CategoryShape | webscrapping.py:18 | the category is the heading text when it does not contain "Top Rated - "; otherwise it is the text before the leftmost occurrence followed by the rest after it, cleaned the same way; it is never longer than the heading text |
| SiteScraper.HeaderlessSectionSkipped | webscrapping.py:14-16 | a section without an `h2` adds no items |
| SiteScraper.SiteCategories | webscrapping.py:13-18 | every item's category is the cleaned heading of a section that has an `h2` |
| SiteScraper.ExtractSiteMenuAppend | webscrapping.py:13-70 | the menu of two runs of sections, one after the other, is the menu of the first run followed by that of the second |
| SiteScraper.PhoneTokenLen | webscrapping.py:87 | the pattern matches at an index exactly when an optional `+` is followed by a digit and seven more digits, whitespace characters or hyphens (`PhoneStartsAt`); a match is at least eight characters long |
| SiteScraper.PhoneTokenLenSound | webscrapping.py:87 | the match at an index is a phone token |
| SiteScraper.PhoneTokenLenMaximal | webscrapping.py:87 | the match is greedy: no longer phone token starts at the same index |
| SiteScraper.PhoneTokenLenIff | webscrapping.py:87 | there is a match at an index exactly when some phone token starts there |
| SiteScraper.PhoneMatchesFrom | webscrapping.py:87 | every `findall` match is a phone token occurring in the text |
| SiteScraper.PhoneMatchesFromStep | webscrapping.py:87 | the whole `findall` list: the longest match at the leftmost position where the pattern matches, followed by the matches after its end |
| SiteScraper.PhoneMatchesFromNone | webscrapping.py:87 | `findall` returns nothing exactly when the pattern matches at no index |
| SiteScraper.PhoneSet | webscrapping.py:86-88 | holds exactly the `findall` matches, each a phone token occurring in the text; empty exactly when the pattern matches nowhere |
| SiteScraper.MailtoLinks | webscrapping.py:93 | exactly the hrefs starting with "mailto:", in document order |
| SiteScraper.RemoveMailto | webscrapping.py:92 | one email per link, each with "mailto:" removed |
| SiteScraper.EmailsAppend | webscrapping.py:91-94 | the emails keep document order: the emails of two runs of links are those of the first run followed by those of the second |
| SiteScraper.ExtractSiteContact | webscrapping.py:72-96 | the addresses key is present exactly when the address div is found and holds its `li` texts; the phones key is present exactly when the contacts div is found and holds exactly the `findall` matches in its text, each a phone token occurring there; the emails are always present and are the `mailto:` links with the prefix removed |
| KnowledgeBase.BuildDocuments | knowledge_base.py:12-32 | one document per record, each tagged with that record's restaurant name |
| KnowledgeBase.DocumentsInOrder | knowledge_base.py:13-32 | the k-th document is the rendering of the k-th record |
| KnowledgeBase.NameRoundTrip | knowledge_base.py:14 | every document begins with the name line, so a name without a line break reads back unchanged |
| KnowledgeBase.HeaderLayout | knowledge_base.py:14-17 | the header lines come in the fixed order: name, address, hours, then the price range |
| KnowledgeBase.CountLayout | knowledge_base.py:18-19 | the header ends with "Total Items: ", the item count in decimal (which reads back as the count), a blank line and "Menu Items:" |
| KnowledgeBase.ItemsTextAppend | knowledge_base.py:21-30 | one block per item, in menu order |
| KnowledgeBase.ItemsTextStart | knowledge_base.py:21-22 | the items' text is empty or starts with an item line, never with a dietary sentence |
| KnowledgeBase.DietLinesRoundTrip | knowledge_base.py:23-30 | the dietary sentences read back give the four flags |
| KnowledgeBase.ItemBlockFlags | knowledge_base.py:21-30 | an item's block is its line followed by the sentences of exactly its flags |

## Left out

- The HTTP exchange (`requests.get`, headers, timeouts), `time.sleep`, `print`, pandas, and JSON and file I/O are not modelled. A response is a parameter (`Scrape.Response`) that carries the status code, the title and the parsed page, or an exception message.
- HTML parsing and BeautifulSoup selection are not modelled. Each extractor receives the elements its `find_all`/`find`/`select` call returns, in document order. `get_text()` and `.string` are one text per element. An element whose `.string` is None, and which `find_all(string=...)` therefore skips, is simply absent from the input.
- The unused `menu_sections` lists (web_scrapping_general.py:22-23) have no effect on the result and are not modelled.
- Scrape.Title: models `soup.title.string` as the title text; the case of a `<title>` whose `.string` is None is not modelled.
- Scrape.ParseAmount: models `float()` only on the two price shapes the scanner produces, in exact cents. Any other text counts as a failed conversion. The `ValueError` message is abbreviated to "could not convert string to float".
- The price range's display as Python floats (`12.0`) is a parameter of the knowledge-base rendering (`priceText`), not modelled.
- `str.lower`, `\d` and `re.I` are modelled on ASCII letters and digits only. Whitespace (`\s`, `strip`, `isspace`) follows Python's full list.
- Exceptions inside a JSON-LD block after a partial update, such as a non-dict `address`, are not modelled. Malformed JSON and non-object JSON are modelled; they change nothing.
- Contact.StreetFromSpec: requires every street word to be non-empty, which holds for the fixed list the scraper uses.
- SiteScraper.PhoneSet: Python's `list(set(...))` has no defined order, so the phones are modelled as a set.
- SiteScraper.RupeeSearch: its own contract says only that a found amount is non-empty. Where the amount comes from is stated in SiteScraper.RupeeSearchFound and SiteScraper.RupeeSearchLeftmost.
- `scrape_tundaykababi` (webscrapping.py:98-118) is only the network call, `raise_for_status` and assembly of the dictionary, so it is not modelled. The `__main__` block is not modelled either.
- A knowledge-base record that is a scrape error has no `contact_info` key, so Python raises `KeyError`. Rendering is modelled for successful records only.
- Text splitting, embeddings and the FAISS store (knowledge_base.py:34-44) are foreign library calls and are not modelled. `chatbot.py` is not part of this model.
