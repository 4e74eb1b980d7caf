/** The knowledge-base document template (knowledge_base.py lines 12-32): one
    plain-text document per scraped restaurant record, with the restaurant's
    name as metadata. How Python renders the price-range numbers is a
    parameter (`priceText`), given the amount in cents. */
module KnowledgeBase {
  import opened Text
  import opened Menu
  import opened Contact
  import opened Scrape

  const NamePrefix: string := "Restaurant Name: "
  const VegetarianLine: string := "  This item is vegetarian.\n"
  const VeganLine: string := "  This item is vegan.\n"
  const GlutenFreeLine: string := "  This item is gluten-free.\n"
  const SpicyLine: string := "  This item is spicy.\n"

  datatype Document = Document(pageContent: string, restaurant: string)

  /** The header: name, address, hours, price range and item count, each on
      its own line, then a blank line and "Menu Items:". */
  function Header(r: RestaurantRecord, priceText: nat -> string): string {
    NamePrefix + r.name + "\n"
    + ("Address: " + r.contact.address + "\n"
    + ("Hours: " + r.contact.hours + "\n"
    + ("Price Range: $" + priceText(r.priceRange.min) + " - $" + priceText(r.priceRange.max) + "\n"
    + ("Total Items: " + NatToString(r.itemCount) + "\n\n"
    + "Menu Items:\n"))))
  }

  /** `f"- {item} (${price}): {description}\n"`; the price already starts with
      "$", so the line shows "($$...)". */
  function ItemLine(m: MenuItem): string {
    "- " + m.item + " ($" + m.price + "): " + m.description + "\n"
  }

  /** A dietary sentence when its flag is set, nothing otherwise. */
  function Sentence(flag: bool, line: string): string {
    if flag then line else ""
  }

  /** The dietary sentences for the four flags, in the fixed order. */
  function DietLines(vegetarian: bool, vegan: bool, glutenFree: bool, spicy: bool): string {
    Sentence(vegetarian, VegetarianLine)
    + (Sentence(vegan, VeganLine)
    + (Sentence(glutenFree, GlutenFreeLine)
    + Sentence(spicy, SpicyLine)))
  }

  function ItemBlock(m: MenuItem): string {
    ItemLine(m) + DietLines(m.vegetarian, m.vegan, m.glutenFree, m.spicy)
  }

  function ItemsText(items: seq<MenuItem>): string {
    if items == [] then "" else ItemBlock(items[0]) + ItemsText(items[1..])
  }

  /** The page content of one restaurant's document. */
  function Render(r: RestaurantRecord, priceText: nat -> string): string {
    Header(r, priceText) + ItemsText(r.menuItems)
  }

  function ToDocument(r: RestaurantRecord, priceText: nat -> string): Document {
    Document(Render(r, priceText), r.name)
  }

  /** The document loop over the loaded records. */
  function BuildDocuments(rs: seq<RestaurantRecord>, priceText: nat -> string): (docs: seq<Document>)
    ensures |docs| == |rs|
    ensures forall k :: 0 <= k < |rs| ==> docs[k].restaurant == rs[k].name
  {
    if rs == [] then [] else [ToDocument(rs[0], priceText)] + BuildDocuments(rs[1..], priceText)
  }

  /** Each document is the rendering of its record, in input order. */
  lemma {:induction false} DocumentsInOrder(rs: seq<RestaurantRecord>, priceText: nat -> string, k: nat)
    requires k < |rs|
    ensures BuildDocuments(rs, priceText)[k] == Document(Render(rs[k], priceText), rs[k].name)
    decreases k
  {
    if k > 0 {
      DocumentsInOrder(rs[1..], priceText, k - 1);
    }
  }

  // ---------------------------------------------------------------------
  // Reading a document back

  /** The text up to the first line break (all of it when there is none). */
  function FirstLine(s: string): (r: string)
    ensures |r| <= |s| && s[..|r|] == r
    ensures forall k :: 0 <= k < |r| ==> r[k] != '\n'
  {
    if s == [] || s[0] == '\n' then [] else [s[0]] + FirstLine(s[1..])
  }

  lemma {:induction false} FirstLineOf(line: string, rest: string)
    requires forall k :: 0 <= k < |line| ==> line[k] != '\n'
    ensures FirstLine(line + "\n" + rest) == line
    decreases |line|
  {
    if line != [] {
      assert (line + "\n" + rest)[1..] == line[1..] + "\n" + rest;
      FirstLineOf(line[1..], rest);
    }
  }

  /** The restaurant name read back from a document: its first line without
      the "Restaurant Name: " prefix. */
  function NameOf(doc: string): string {
    if StartsWith(doc, NamePrefix) then FirstLine(doc[|NamePrefix|..]) else ""
  }

  /** A text made of the name line and anything after it reads back as the
      name. */
  lemma NameLineRead(name: string, rest: string)
    requires forall k :: 0 <= k < |name| ==> name[k] != '\n'
    ensures StartsWith(NamePrefix + name + "\n" + rest, NamePrefix + name + "\n")
    ensures NameOf(NamePrefix + name + "\n" + rest) == name
  {
    var doc := NamePrefix + name + "\n" + rest;
    assert doc == NamePrefix + (name + "\n" + rest);
    Prefixed(NamePrefix, name + "\n" + rest);
    Prefixed(NamePrefix + name + "\n", rest);
    FirstLineOf(name, rest);
  }

  /** Every document begins with "Restaurant Name: " and the name on its own
      line, so a name without a line break is read back unchanged. */
  lemma NameRoundTrip(r: RestaurantRecord, priceText: nat -> string)
    requires forall k :: 0 <= k < |r.name| ==> r.name[k] != '\n'
    ensures StartsWith(Render(r, priceText), NamePrefix + r.name + "\n")
    ensures NameOf(Render(r, priceText)) == r.name
  {
    var nameLine := NamePrefix + r.name + "\n";
    var h := Header(r, priceText);
    var body := h[|nameLine|..] + ItemsText(r.menuItems);
    HeaderLayout(r, priceText);
    assert h == nameLine + h[|nameLine|..];
    assert Render(r, priceText) == nameLine + body;
    NameLineRead(r.name, body);
  }

  /** The header lines come in the fixed order name, address, hours, price
      range, item count, followed by the menu section. */
  lemma HeaderLayout(r: RestaurantRecord, priceText: nat -> string)
    ensures var h := Header(r, priceText);
            var nameLine := NamePrefix + r.name + "\n";
            var addressLine := "Address: " + r.contact.address + "\n";
            var hoursLine := "Hours: " + r.contact.hours + "\n";
            && StartsWith(h, nameLine)
            && StartsWith(h[|nameLine|..], addressLine)
            && StartsWith(h[|nameLine| + |addressLine|..], hoursLine)
            && StartsWith(h[|nameLine| + |addressLine| + |hoursLine|..], "Price Range: $")
  {
    var nameLine := NamePrefix + r.name + "\n";
    var addressLine := "Address: " + r.contact.address + "\n";
    var hoursLine := "Hours: " + r.contact.hours + "\n";
    var countPart := "Total Items: " + NatToString(r.itemCount) + "\n\n" + "Menu Items:\n";
    var pricePart := "Price Range: $" + priceText(r.priceRange.min) + " - $" + priceText(r.priceRange.max) + "\n" + countPart;
    var priceTail := priceText(r.priceRange.min) + " - $" + priceText(r.priceRange.max) + "\n" + countPart;
    assert pricePart == "Price Range: $" + priceTail;
    Prefixed("Price Range: $", priceTail);
    var hoursPart := hoursLine + pricePart;
    var addressPart := addressLine + hoursPart;
    assert Header(r, priceText) == nameLine + addressPart;
    Prefixed(nameLine, addressPart);
    Prefixed(addressLine, hoursPart);
    Prefixed(hoursLine, pricePart);
    assert |nameLine| + |addressLine| + |hoursLine| == |nameLine| + (|addressLine| + |hoursLine|);
    SuffixOfSuffix(nameLine + addressPart, |nameLine|, |addressLine|);
    SuffixOfSuffix(nameLine + addressPart, |nameLine| + |addressLine|, |hoursLine|);
  }

  /** The header ends with the item-count line, a blank line and the "Menu
      Items:" heading; the count is written in decimal and reads back as the
      record's item count. */
  lemma CountLayout(r: RestaurantRecord, priceText: nat -> string)
    ensures var h := Header(r, priceText);
            var digits := NatToString(r.itemCount);
            var tail := "Total Items: " + digits + "\n\n" + "Menu Items:\n";
            && |tail| <= |h| && h[|h| - |tail|..] == tail
            && AllDigits(digits) && DecimalValue(digits) == r.itemCount
  {
    var digits := NatToString(r.itemCount);
    var tail := "Total Items: " + digits + "\n\n" + "Menu Items:\n";
    var lines := NamePrefix + r.name + "\n" + "Address: " + r.contact.address + "\n"
      + "Hours: " + r.contact.hours + "\n"
      + "Price Range: $" + priceText(r.priceRange.min) + " - $" + priceText(r.priceRange.max) + "\n";
    assert Header(r, priceText) == lines + tail;
    assert (lines + tail)[|lines|..] == tail;
    NatToStringRoundTrip(r.itemCount);
  }

  lemma SuffixOfSuffix(s: string, i: nat, j: nat)
    requires i + j <= |s|
    ensures s[i..][j..] == s[i + j..]
  {
  }

  /** The items' text of a longer menu is that of its first part followed by
      that of the rest: one block per item, in menu order. */
  lemma {:induction false} ItemsTextAppend(a: seq<MenuItem>, b: seq<MenuItem>)
    ensures ItemsText(a + b) == ItemsText(a) + ItemsText(b)
    decreases |a|
  {
    if a == [] {
      assert a + b == b;
    } else {
      assert (a + b)[0] == a[0];
      assert (a + b)[1..] == a[1..] + b;
      ItemsTextAppend(a[1..], b);
    }
  }

  /** Reads the dietary sentences at the start of `s` back into the four
      flags, consuming them in the fixed order. */
  function ParseDietLines(s: string): (bool, bool, bool, bool) {
    var v := StartsWith(s, VegetarianLine);
    var s1 := if v then s[|VegetarianLine|..] else s;
    var vg := StartsWith(s1, VeganLine);
    var s2 := if vg then s1[|VeganLine|..] else s1;
    var gf := StartsWith(s2, GlutenFreeLine);
    var s3 := if gf then s2[|GlutenFreeLine|..] else s2;
    (v, vg, gf, StartsWith(s3, SpicyLine))
  }

  /** A string that differs from `line` at index `i` (or ends before it)
      does not start with `line`. */
  lemma Mismatch(s: string, line: string, i: nat)
    requires i < |line| && (i >= |s| || s[i] != line[i])
    ensures !StartsWith(s, line)
  {
    if i < |s| && |line| <= |s| {
      assert s[..|line|][i] == s[i];
    }
  }

  /** `s` starts with `line` followed by `rest`, and dropping `line` gives `rest`. */
  lemma Prefixed(line: string, rest: string)
    ensures StartsWith(line + rest, line) && (line + rest)[|line|..] == rest
  {
    assert (line + rest)[..|line|] == line;
  }

  /** A line followed by `d` and `next` starts with the line, and dropping it
      leaves `d` followed by `next`. */
  lemma LineThen(line: string, d: string, next: string)
    ensures StartsWith(line + d + next, line) && (line + d + next)[|line|..] == d + next
  {
    assert line + d + next == line + (d + next);
    Prefixed(line, d + next);
  }

  /** What follows the dietary sentences cannot be read as one: the text after
      an item's sentences is the next item line or the end of the document. */
  predicate NotASentence(rest: string) {
    |rest| == 0 || rest[0] != ' '
  }

  /** A sentence, or what follows the sentences, does not start with the
      vegetarian sentence unless it is that sentence. */
  lemma {:induction false} LineHead(line: string, rest: string, target: string, i: nat)
    requires i < |line| && i < |target| && line[i] != target[i]
    ensures !StartsWith(line + rest, target)
  {
    assert (line + rest)[i] == line[i];
    Mismatch(line + rest, target, i);
  }

  /** Peeling the first sentence off the dietary text, one flag at a time. */
  lemma PeelVegetarian(v: bool, vg: bool, gf: bool, sp: bool, rest: string)
    ensures DietLines(v, vg, gf, sp) + rest
            == Sentence(v, VegetarianLine) + (DietLines(false, vg, gf, sp) + rest)
  {
    var d := Sentence(vg, VeganLine) + (Sentence(gf, GlutenFreeLine) + Sentence(sp, SpicyLine));
    assert DietLines(false, vg, gf, sp) == d;
  }

  lemma PeelVegan(vg: bool, gf: bool, sp: bool, rest: string)
    ensures DietLines(false, vg, gf, sp) + rest
            == Sentence(vg, VeganLine) + (DietLines(false, false, gf, sp) + rest)
  {
    var d := Sentence(gf, GlutenFreeLine) + Sentence(sp, SpicyLine);
    assert DietLines(false, false, gf, sp) == d;
    assert DietLines(false, vg, gf, sp) == Sentence(vg, VeganLine) + d;
  }

  lemma PeelGlutenFree(gf: bool, sp: bool, rest: string)
    ensures DietLines(false, false, gf, sp) + rest
            == Sentence(gf, GlutenFreeLine) + (DietLines(false, false, false, sp) + rest)
  {
    assert DietLines(false, false, false, sp) == Sentence(sp, SpicyLine);
    assert DietLines(false, false, gf, sp) == Sentence(gf, GlutenFreeLine) + Sentence(sp, SpicyLine);
  }

  lemma PeelSpicy(sp: bool, rest: string)
    ensures DietLines(false, false, false, sp) + rest == Sentence(sp, SpicyLine) + rest
  {
    assert DietLines(false, false, false, sp) == Sentence(sp, SpicyLine);
  }

  /** The text from the vegan sentence on never starts with the vegetarian
      sentence. */
  lemma NoVegetarianAhead(vg: bool, gf: bool, sp: bool, rest: string)
    requires NotASentence(rest)
    ensures !StartsWith(DietLines(false, vg, gf, sp) + rest, VegetarianLine)
  {
    PeelVegan(vg, gf, sp, rest);
    if vg {
      LineHead(VeganLine, DietLines(false, false, gf, sp) + rest, VegetarianLine, 18);
    } else {
      NoSentenceAhead(gf, sp, rest, VegetarianLine);
    }
  }

  /** The text from the gluten-free sentence on never starts with a sentence
      whose sixteenth character is `v` (vegetarian or vegan). */
  lemma NoSentenceAhead(gf: bool, sp: bool, rest: string, target: string)
    requires NotASentence(rest)
    requires |target| > 15 && target[0] == ' ' && target[15] == 'v'
    ensures !StartsWith(DietLines(false, false, gf, sp) + rest, target)
  {
    PeelGlutenFree(gf, sp, rest);
    if gf {
      LineHead(GlutenFreeLine, DietLines(false, false, false, sp) + rest, target, 15);
    } else {
      NoGlutenFreeAhead(sp, rest);
      PeelSpicy(sp, rest);
      if sp {
        LineHead(SpicyLine, rest, target, 15);
      } else {
        Mismatch(rest, target, 0);
      }
    }
  }

  lemma NoVeganAhead(gf: bool, sp: bool, rest: string)
    requires NotASentence(rest)
    ensures !StartsWith(DietLines(false, false, gf, sp) + rest, VeganLine)
  {
    NoSentenceAhead(gf, sp, rest, VeganLine);
  }

  lemma NoGlutenFreeAhead(sp: bool, rest: string)
    requires NotASentence(rest)
    ensures !StartsWith(DietLines(false, false, false, sp) + rest, GlutenFreeLine)
  {
    PeelSpicy(sp, rest);
    if sp {
      LineHead(SpicyLine, rest, GlutenFreeLine, 15);
    } else {
      Mismatch(rest, GlutenFreeLine, 0);
    }
  }

  /** Reading one optional sentence off the front of `line + tail`
      (or of `tail` alone): the flag comes back and what is left is `tail`. */
  lemma ReadSentence(b: bool, line: string, tail: string)
    requires b || !StartsWith(tail, line)
    ensures var s := Sentence(b, line) + tail;
            StartsWith(s, line) == b
            && (if b then s[|line|..] else s) == tail
  {
    if b {
      Prefixed(line, tail);
    } else {
      assert "" + tail == tail;
    }
  }

  /** The dietary sentences determine the flags: reading them back, as long as
      what follows does not itself start like a sentence, gives each flag. */
  lemma DietLinesRoundTrip(v: bool, vg: bool, gf: bool, sp: bool, rest: string)
    requires NotASentence(rest)
    ensures ParseDietLines(DietLines(v, vg, gf, sp) + rest) == (v, vg, gf, sp)
  {
    var l2 := DietLines(false, vg, gf, sp) + rest;
    var l3 := DietLines(false, false, gf, sp) + rest;
    var l4 := DietLines(false, false, false, sp) + rest;
    PeelVegetarian(v, vg, gf, sp, rest);
    NoVegetarianAhead(vg, gf, sp, rest);
    ReadSentence(v, VegetarianLine, l2);
    PeelVegan(vg, gf, sp, rest);
    NoVeganAhead(gf, sp, rest);
    ReadSentence(vg, VeganLine, l3);
    PeelGlutenFree(gf, sp, rest);
    NoGlutenFreeAhead(sp, rest);
    ReadSentence(gf, GlutenFreeLine, l4);
    PeelSpicy(sp, rest);
    if !sp {
      Mismatch(rest, SpicyLine, 0);
    }
    ReadSentence(sp, SpicyLine, rest);
  }

  /** An item's block is its line followed by the sentences of exactly its
      flags, and the next item's block cannot be mistaken for a sentence. */
  lemma ItemBlockFlags(m: MenuItem, next: string)
    requires NotASentence(next)
    ensures var b := ItemBlock(m) + next;
            && StartsWith(b, ItemLine(m))
            && ParseDietLines(b[|ItemLine(m)|..]) == (m.vegetarian, m.vegan, m.glutenFree, m.spicy)
  {
    var d := DietLines(m.vegetarian, m.vegan, m.glutenFree, m.spicy);
    LineThen(ItemLine(m), d, next);
    DietLinesRoundTrip(m.vegetarian, m.vegan, m.glutenFree, m.spicy, next);
  }

  /** The items' text never starts like a sentence: it is empty or starts with
      an item line. */
  lemma ItemsTextStart(items: seq<MenuItem>)
    ensures NotASentence(ItemsText(items))
  {
    if items != [] {
      assert ItemsText(items)[0] == '-';
    }
  }
}
