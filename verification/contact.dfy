/** Contact extraction of the general scraper (`extract_contact_info`,
    web_scrapping_general.py lines 117-217): a four-field record that starts at
    the "Not found" sentinel, is first filled from the page's JSON-LD business
    blocks, and then by keyword heuristics that run only for fields still at the
    sentinel. */
module Contact {
  import opened Wrappers
  import opened Text
  import opened Dom
  import opened PhoneScan

  const NotFound: string := "Not found"

  datatype ContactInfo = ContactInfo(address: string, phone: string, email: string, hours: string)

  /** The record before any evidence is consulted: every field is the sentinel. */
  function InitialContact(): (c: ContactInfo)
    ensures c.address == NotFound && c.phone == NotFound && c.email == NotFound && c.hours == NotFound
  {
    ContactInfo(NotFound, NotFound, NotFound, NotFound)
  }

  // ---------------------------------------------------------------------
  // JSON-LD blocks

  /** A schema.org PostalAddress; a missing key reads as "" (`.get(key, '')`). */
  datatype PostalAddress = PostalAddress(streetAddress: string, addressLocality: string, addressRegion: string, postalCode: string)

  /** One OpeningHoursSpecification; a missing key reads as "". */
  datatype HoursSpec = HoursSpec(dayOfWeek: string, opens: string, closes: string)

  /** A JSON-LD object: its `@type` and the keys the scraper reads, each
      absent or present. A single `openingHoursSpecification` object is the
      one-element sequence. */
  datatype LdNode = LdNode(
    ldType: Option<string>,
    address: Option<PostalAddress>,
    telephone: Option<string>,
    openingHours: Option<seq<HoursSpec>>)

  /** One `<script type="application/ld+json">` block: text that `json.loads`
      rejects, JSON that is not an object, or an object with an optional
      `@graph` array of nodes. */
  datatype LdScript = Unparsable | NonObject | LdObject(node: LdNode, graph: Option<seq<LdNode>>)

  predicate IsBusinessType(t: Option<string>) {
    t == Some("Restaurant") || t == Some("LocalBusiness")
  }

  /** `f"{street}, {locality}, {region} {postalCode}"` */
  function FormatAddress(a: PostalAddress): (r: string)
    ensures ',' in r
  {
    var r := a.streetAddress + ", " + a.addressLocality + ", " + a.addressRegion + " " + a.postalCode;
    assert r[|a.streetAddress|] == ',';
    r
  }

  /** `f"{day}: {opens}-{closes}"` */
  function FormatHours(h: HoursSpec): string {
    h.dayOfWeek + ": " + h.opens + "-" + h.closes
  }

  function FormatHoursList(hs: seq<HoursSpec>): (r: seq<string>)
    ensures |r| == |hs|
    ensures forall k :: 0 <= k < |hs| ==> r[k] == FormatHours(hs[k])
  {
    if hs == [] then [] else [FormatHours(hs[0])] + FormatHoursList(hs[1..])
  }

  /** `", ".join(f"{day}: {opens}-{closes}" for each specification)` */
  function HoursText(hs: seq<HoursSpec>): string {
    Join(FormatHoursList(hs), ", ")
  }

  /** One specification renders as "day: opens-closes", and each further one
      adds ", " and its own rendering at the end. */
  lemma HoursTextShape(hs: seq<HoursSpec>, h: HoursSpec)
    ensures HoursText([h]) == h.dayOfWeek + ": " + h.opens + "-" + h.closes
    ensures |hs| > 0 ==> HoursText(hs + [h]) == HoursText(hs) + ", " + FormatHours(h)
  {
    if |hs| > 0 {
      assert FormatHoursList(hs + [h]) == FormatHoursList(hs) + [FormatHours(h)];
      JoinSnoc(FormatHoursList(hs), FormatHours(h), ", ");
    }
  }

  /** A business node overwrites the fields it carries; any other node changes
      nothing. The email is never set from JSON-LD. */
  function ApplyNode(c: ContactInfo, n: LdNode): (r: ContactInfo)
    ensures r.email == c.email
    ensures !IsBusinessType(n.ldType) ==> r == c
    ensures IsBusinessType(n.ldType) && n.address.Some? ==> r.address == FormatAddress(n.address.value)
    ensures !(IsBusinessType(n.ldType) && n.address.Some?) ==> r.address == c.address
    ensures IsBusinessType(n.ldType) && n.telephone.Some? ==> r.phone == n.telephone.value
    ensures !(IsBusinessType(n.ldType) && n.telephone.Some?) ==> r.phone == c.phone
    ensures IsBusinessType(n.ldType) && n.openingHours.Some? ==> r.hours == HoursText(n.openingHours.value)
    ensures !(IsBusinessType(n.ldType) && n.openingHours.Some?) ==> r.hours == c.hours
  {
    if !IsBusinessType(n.ldType) then c
    else
      var c1 := if n.address.Some? then c.(address := FormatAddress(n.address.value)) else c;
      var c2 := if n.telephone.Some? then c1.(phone := n.telephone.value) else c1;
      if n.openingHours.Some? then c2.(hours := HoursText(n.openingHours.value)) else c2
  }

  function ApplyNodes(c: ContactInfo, ns: seq<LdNode>): (r: ContactInfo)
    ensures r.email == c.email
    decreases |ns|
  {
    if ns == [] then c else ApplyNodes(ApplyNode(c, ns[0]), ns[1..])
  }

  /** A parsed object is applied as a node, then each node of its `@graph`;
      unparsable text and non-objects are skipped. */
  function ApplyScript(c: ContactInfo, s: LdScript): (r: ContactInfo)
    ensures r.email == c.email
  {
    match s
    case LdObject(n, g) =>
      var c1 := ApplyNode(c, n);
      if g.Some? then ApplyNodes(c1, g.value) else c1
    case _ => c
  }

  /** The JSON-LD pass over all script blocks in document order. */
  function ApplyScripts(c: ContactInfo, ss: seq<LdScript>): (r: ContactInfo)
    ensures r.email == c.email
    decreases |ss|
  {
    if ss == [] then c else ApplyScripts(ApplyScript(c, ss[0]), ss[1..])
  }

  /** Later blocks override earlier ones: the JSON-LD pass over one more block
      is that block applied to the result of the others. */
  lemma {:induction false} ApplyScriptsSnoc(c: ContactInfo, ss: seq<LdScript>, s: LdScript)
    ensures ApplyScripts(c, ss + [s]) == ApplyScript(ApplyScripts(c, ss), s)
    decreases |ss|
  {
    if ss == [] {
      assert [s][1..] == [];
    } else {
      assert (ss + [s])[1..] == ss[1..] + [s];
      ApplyScriptsSnoc(ApplyScript(c, ss[0]), ss[1..], s);
    }
  }

  /** A structured address is never the sentinel, so once a business block
      carries an address, the address heuristics do not run. */
  lemma StructuredAddressIsNotSentinel(a: PostalAddress)
    ensures FormatAddress(a) != NotFound
  {
    assert ',' !in NotFound;
  }

  // ---------------------------------------------------------------------
  // Keyword heuristics

  const AddressWords: seq<string> := ["address", "location", "find us", "directions"]
  const PhoneWords: seq<string> := ["phone", "call", "tel", "contact"]
  const HoursWords: seq<string> := ["hours", "open", "opening", "time"]
  const StreetWords: seq<string> := ["street", "st.", "avenue", "ave.", "road", "rd.", "blvd", "boulevard"]
  const Weekdays: seq<string> := ["monday", "tuesday", "wednesday", "thursday", "friday", "saturday", "sunday"]

  /** `s` begins with one of `words`. */
  function StartsWithAny(s: string, words: seq<string>): (b: bool)
    ensures b <==> exists k :: 0 <= k < |words| && StartsWith(s, words[k])
  {
    if words == [] then false else StartsWith(s, words[0]) || StartsWithAny(s, words[1..])
  }

  /** No line break in `s[a..b]`. */
  predicate SameLine(s: string, a: nat, b: nat)
    requires a <= b <= |s|
  {
    forall k :: a <= k < b ==> s[k] != '\n'
  }

  /** The regex `\d+.*(?:street|st\.|avenue|ave\.|road|rd\.|blvd|boulevard)`,
      with the keyword alternatives `words`, matches with its digits ending at
      or after `d` and its keyword at `j`: a digit at `d`, no line break from
      there to `j` (`.` does not match a newline), a keyword at `j`. */
  ghost predicate StreetMatchAt(low: string, words: seq<string>, d: int, j: int) {
    && 0 <= d < j <= |low|
    && IsDigit(low[d])
    && SameLine(low, d, j)
    && StartsWithAny(low[j..], words)
  }

  /** Some digit before `i` is on the same line as `i`. */
  ghost predicate DigitBefore(low: string, i: nat)
    requires i <= |low|
  {
    exists d :: 0 <= d < i && IsDigit(low[d]) && SameLine(low, d, i)
  }

  /** The street test as a left-to-right scan: `seen` records whether a digit
      has occurred since the last line break. */
  function StreetFrom(low: string, words: seq<string>, i: nat, seen: bool): bool
    requires i <= |low|
    decreases |low| - i
  {
    if i == |low| then false
    else if seen && StartsWithAny(low[i..], words) then true
    else StreetFrom(low, words, i + 1, low[i] != '\n' && (seen || IsDigit(low[i])))
  }

  lemma DigitBeforeStep(low: string, i: nat)
    requires i < |low|
    ensures DigitBefore(low, i + 1) <==> low[i] != '\n' && (DigitBefore(low, i) || IsDigit(low[i]))
  {
    if DigitBefore(low, i + 1) {
      var d :| 0 <= d < i + 1 && IsDigit(low[d]) && SameLine(low, d, i + 1);
      assert low[i] != '\n';
      if d < i {
        assert SameLine(low, d, i);
      }
    }
    if low[i] != '\n' && (DigitBefore(low, i) || IsDigit(low[i])) {
      if IsDigit(low[i]) {
        assert SameLine(low, i, i + 1);
      } else {
        var d :| 0 <= d < i && IsDigit(low[d]) && SameLine(low, d, i);
        assert SameLine(low, d, i + 1);
      }
    }
  }

  /** No match has its keyword at `i` unless a digit precedes `i` on its line. */
  lemma NoMatchWithoutDigit(low: string, words: seq<string>, i: nat)
    requires i <= |low| && !DigitBefore(low, i)
    ensures forall d :: !StreetMatchAt(low, words, d, i)
  {
  }

  lemma {:induction false} StreetFromSpec(low: string, words: seq<string>, i: nat, seen: bool)
    requires i <= |low|
    requires seen == DigitBefore(low, i)
    requires forall k :: 0 <= k < |words| ==> words[k] != []
    ensures StreetFrom(low, words, i, seen) <==> exists d, j :: i <= j && StreetMatchAt(low, words, d, j)
    decreases |low| - i
  {
    if i == |low| {
      assert low[i..] == [];
      assert forall k :: 0 <= k < |words| ==> !StartsWith(low[i..], words[k]);
    } else if seen && StartsWithAny(low[i..], words) {
      var d :| 0 <= d < i && IsDigit(low[d]) && SameLine(low, d, i);
      assert StreetMatchAt(low, words, d, i);
    } else {
      var next := low[i] != '\n' && (seen || IsDigit(low[i]));
      DigitBeforeStep(low, i);
      StreetFromSpec(low, words, i + 1, next);
      if !seen {
        NoMatchWithoutDigit(low, words, i);
      }
      assert forall d :: !StreetMatchAt(low, words, d, i);
    }
  }

  /** `re.search(street_pattern, text, re.I)` succeeds. */
  predicate LooksLikeStreet(text: string) {
    StreetFrom(Lower(text), StreetWords, 0, false)
  }

  /** The scan is the regex: it succeeds exactly when, in the lower-cased text,
      a digit is followed on the same line by a street word. */
  lemma LooksLikeStreetIff(text: string)
    ensures LooksLikeStreet(text) <==> exists d, j :: StreetMatchAt(Lower(text), StreetWords, d, j)
  {
    StreetFromSpec(Lower(text), StreetWords, 0, false);
  }

  /** `re.search(r'(monday|...|sunday)', text, re.I)` succeeds. */
  predicate MentionsWeekday(text: string) {
    ContainsAny(Lower(text), Weekdays)
  }

  /** The three heuristic passes. */
  datatype Field = AddressField | PhoneField | HoursField

  function FieldTags(f: Field): set<string> {
    match f
    case AddressField => {"p", "span", "div"}
    case PhoneField => {"p", "span", "div", "a"}
    case HoursField => {"p", "div", "span"}
  }

  function FieldWords(f: Field): seq<string> {
    match f
    case AddressField => AddressWords
    case PhoneField => PhoneWords
    case HoursField => HoursWords
  }

  /** What a candidate element contributes to a field, if anything: the
      stripped text when it looks like a street address or names a weekday, or
      the phone number found in its text. */
  function Probe(f: Field, e: Element): Option<string> {
    match f
    case AddressField => if LooksLikeStreet(Strip(e.text)) then Some(Strip(e.text)) else None
    case PhoneField => SearchPhone(e.text)
    case HoursField => if MentionsWeekday(Strip(e.text)) then Some(Strip(e.text)) else None
  }

  /** The element is one `find_all(tags, string=re.compile(word, re.I))` returns
      and it contributes a value. */
  function Hit(f: Field, e: Element, word: string): Option<string> {
    if e.tag in FieldTags(f) && Contains(Lower(e.text), word) then Probe(f, e) else None
  }

  /** The inner loop for one keyword: the first element that hits, after which
      `break` leaves the inner loop. */
  function FirstHit(f: Field, elems: seq<Element>, word: string): (r: Option<string>)
    ensures r.None? <==> forall k :: 0 <= k < |elems| ==> Hit(f, elems[k], word).None?
  {
    if elems == [] then None
    else if Hit(f, elems[0], word).Some? then Hit(f, elems[0], word)
    else
      assert forall k :: 0 < k < |elems| ==> elems[k] == elems[1..][k - 1];
      FirstHit(f, elems[1..], word)
  }

  /** The element the inner loop stops at is the first one that hits: its
      contribution is the keyword's result. */
  lemma {:induction false} FirstHitAt(f: Field, elems: seq<Element>, word: string, k: nat)
    requires k < |elems| && Hit(f, elems[k], word).Some?
    requires forall j :: 0 <= j < k ==> Hit(f, elems[j], word).None?
    ensures FirstHit(f, elems, word) == Hit(f, elems[k], word)
    decreases k
  {
    if k > 0 {
      assert Hit(f, elems[0], word).None?;
      assert forall j :: 0 <= j < k - 1 ==> elems[1..][j] == elems[j + 1];
      FirstHitAt(f, elems[1..], word, k - 1);
    }
  }

  /** The outer loop over the keywords. `break` only leaves the inner loop, so
      every keyword is tried and a later keyword's hit overwrites an earlier
      one. */
  function KeywordPass(f: Field, elems: seq<Element>, words: seq<string>, current: string): string {
    if words == [] then current
    else KeywordPass(f, elems, words[1..], FirstHit(f, elems, words[0]).GetOr(current))
  }

  /** The last keyword that hits decides the field: the pass over one more
      keyword yields that keyword's first hit when there is one, and otherwise
      what the earlier keywords yielded. */
  lemma {:induction false} LaterKeywordOverwrites(f: Field, elems: seq<Element>, words: seq<string>, w: string, current: string)
    ensures KeywordPass(f, elems, words + [w], current)
         == FirstHit(f, elems, w).GetOr(KeywordPass(f, elems, words, current))
    decreases |words|
  {
    if words == [] {
      assert [w][1..] == [];
    } else {
      assert (words + [w])[1..] == words[1..] + [w];
      LaterKeywordOverwrites(f, elems, words[1..], w, FirstHit(f, elems, words[0]).GetOr(current));
    }
  }

  /** When no keyword hits, the field keeps its value. */
  lemma {:induction false} KeywordPassNoHit(f: Field, elems: seq<Element>, words: seq<string>, current: string)
    requires forall k :: 0 <= k < |words| ==> FirstHit(f, elems, words[k]).None?
    ensures KeywordPass(f, elems, words, current) == current
    decreases |words|
  {
    if words != [] {
      assert FirstHit(f, elems, words[0]).None?;
      KeywordPassNoHit(f, elems, words[1..], current);
    }
  }

  /** The first link whose href starts with `prefix`, in document order
      (`find_all('a', href=re.compile('^' + prefix))[0]`). */
  function FirstWithPrefix(hrefs: seq<string>, prefix: string): (r: Option<string>)
    ensures r.None? <==> forall k :: 0 <= k < |hrefs| ==> !StartsWith(hrefs[k], prefix)
    ensures r.Some? ==> exists k :: 0 <= k < |hrefs| && hrefs[k] == r.value && StartsWith(r.value, prefix)
                                   && forall j :: 0 <= j < k ==> !StartsWith(hrefs[j], prefix)
  {
    if hrefs == [] then None
    else if StartsWith(hrefs[0], prefix) then Some(hrefs[0])
    else
      var r := FirstWithPrefix(hrefs[1..], prefix);
      assert forall k :: 0 < k < |hrefs| ==> hrefs[k] == hrefs[1..][k - 1];
      assert r.Some? ==> exists k :: 0 <= k < |hrefs| && hrefs[k] == r.value && StartsWith(r.value, prefix)
                                     && forall j :: 0 <= j < k ==> !StartsWith(hrefs[j], prefix) by {
        if r.Some? {
          var k :| 0 <= k < |hrefs[1..]| && hrefs[1..][k] == r.value && StartsWith(r.value, prefix)
                   && forall j :: 0 <= j < k ==> !StartsWith(hrefs[1..][j], prefix);
          assert hrefs[k + 1] == r.value;
        }
      }
      r
  }

  /** The first `tel:` link with every "tel:" removed, if there is one. */
  function TelPhone(hrefs: seq<string>): Option<string> {
    var link := FirstWithPrefix(hrefs, "tel:");
    if link.Some? then Some(ReplaceAll(link.value, "tel:")) else None
  }

  /** The first `mailto:` link with every "mailto:" removed, if there is one. */
  function MailtoEmail(hrefs: seq<string>): Option<string> {
    var link := FirstWithPrefix(hrefs, "mailto:");
    if link.Some? then Some(ReplaceAll(link.value, "mailto:")) else None
  }

  // ---------------------------------------------------------------------
  // The whole extraction

  /** What the contact extraction reads from a page: its JSON-LD blocks, its
      candidate elements in document order, and the hrefs of its links in
      document order. */
  datatype ContactPage = ContactPage(scripts: seq<LdScript>, blocks: seq<Element>, hrefs: seq<string>)

  function AddressPass(c: ContactInfo, blocks: seq<Element>): ContactInfo {
    if c.address == NotFound then c.(address := KeywordPass(AddressField, blocks, AddressWords, c.address)) else c
  }

  /** The phone heuristics; inside the same guard, a `tel:` link overrides
      whatever the keyword pass found. */
  function PhonePass(c: ContactInfo, blocks: seq<Element>, hrefs: seq<string>): ContactInfo {
    if c.phone == NotFound then
      var found := KeywordPass(PhoneField, blocks, PhoneWords, c.phone);
      c.(phone := TelPhone(hrefs).GetOr(found))
    else c
  }

  /** The email pass has no guard: the first `mailto:` link always wins. */
  function EmailPass(c: ContactInfo, hrefs: seq<string>): ContactInfo {
    var email := MailtoEmail(hrefs);
    if email.Some? then c.(email := email.value) else c
  }

  function HoursPass(c: ContactInfo, blocks: seq<Element>): ContactInfo {
    if c.hours == NotFound then c.(hours := KeywordPass(HoursField, blocks, HoursWords, c.hours)) else c
  }

  /** The JSON-LD result, before any heuristic. */
  function StructuredContact(page: ContactPage): ContactInfo {
    ApplyScripts(InitialContact(), page.scripts)
  }

  function ExtractContactInfo(page: ContactPage): ContactInfo {
    var c0 := StructuredContact(page);
    var c1 := AddressPass(c0, page.blocks);
    var c2 := PhonePass(c1, page.blocks, page.hrefs);
    var c3 := EmailPass(c2, page.hrefs);
    HoursPass(c3, page.blocks)
  }

  /** A field JSON-LD filled is kept: the heuristics run only for fields
      still at the sentinel. */
  lemma StructuredFieldsWin(page: ContactPage)
    ensures var s := StructuredContact(page);
            var r := ExtractContactInfo(page);
            && (s.address != NotFound ==> r.address == s.address)
            && (s.phone != NotFound ==> r.phone == s.phone)
            && (s.hours != NotFound ==> r.hours == s.hours)
  {
  }

  /** With no structured value, the address is the first street-like
      candidate of the last address keyword that has one, else the sentinel. */
  lemma AddressFromHeuristics(page: ContactPage)
    requires StructuredContact(page).address == NotFound
    ensures ExtractContactInfo(page).address == KeywordPass(AddressField, page.blocks, AddressWords, NotFound)
  {
  }

  /** With no structured phone, a `tel:` link overrides the phone the keyword
      pass found; without one the keyword pass decides. */
  lemma TelLinkOverridesPhone(page: ContactPage)
    requires StructuredContact(page).phone == NotFound
    ensures var tel := FirstWithPrefix(page.hrefs, "tel:");
            && (tel.Some? ==> ExtractContactInfo(page).phone == ReplaceAll(tel.value, "tel:"))
            && (tel.None? ==> ExtractContactInfo(page).phone == KeywordPass(PhoneField, page.blocks, PhoneWords, NotFound))
  {
  }

  /** The email is the first `mailto:` link with "mailto:" removed, or the
      sentinel when the page has none; JSON-LD never sets it. */
  lemma EmailFromFirstMailto(page: ContactPage)
    ensures var mail := FirstWithPrefix(page.hrefs, "mailto:");
            && (mail.Some? ==> ExtractContactInfo(page).email == ReplaceAll(mail.value, "mailto:"))
            && (mail.None? ==> ExtractContactInfo(page).email == NotFound)
  {
  }

  /** A page without JSON-LD, without links and whose elements hit for no
      keyword leaves every field at the sentinel. */
  lemma NoEvidenceKeepsSentinels(page: ContactPage)
    requires page.scripts == [] && page.hrefs == []
    requires forall f: Field, k :: 0 <= k < |FieldWords(f)| ==> FirstHit(f, page.blocks, FieldWords(f)[k]).None?
    ensures ExtractContactInfo(page) == InitialContact()
  {
    var c0 := StructuredContact(page);
    assert c0 == InitialContact();
    assert FieldWords(AddressField) == AddressWords;
    KeywordPassNoHit(AddressField, page.blocks, AddressWords, NotFound);
    var c1 := AddressPass(c0, page.blocks);
    assert c1 == c0;
    assert FieldWords(PhoneField) == PhoneWords;
    KeywordPassNoHit(PhoneField, page.blocks, PhoneWords, NotFound);
    var c2 := PhonePass(c1, page.blocks, page.hrefs);
    assert c2 == c0;
    var c3 := EmailPass(c2, page.hrefs);
    assert c3 == c0;
    assert FieldWords(HoursField) == HoursWords;
    KeywordPassNoHit(HoursField, page.blocks, HoursWords, NotFound);
  }
}
