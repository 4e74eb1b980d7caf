/** The page abstraction shared by the scrapers: BeautifulSoup's parsed tree is
    replaced by the already-selected elements, each reduced to its tag name and
    its text, in document order. */
module Dom {

  /** An HTML element reduced to its tag name and its text. For the elements
      `find_all(..., string=...)` selects, the text is the element's single
      string, which is what the filter tests; for the siblings the heading
      strategies walk, which no string filter selects, it is `get_text()`. */
  datatype Element = Element(tag: string, text: string)

  /** The elements of `elems` whose tag is in `tags`, in order (the tag-list
      filter of `find_all` and `find_next_siblings`). */
  function WithTags(elems: seq<Element>, tags: set<string>): (r: seq<Element>)
    ensures |r| <= |elems|
    ensures forall k :: 0 <= k < |r| ==> r[k].tag in tags && r[k] in elems
    ensures forall e :: e in elems && e.tag in tags ==> e in r
  {
    if elems == [] then []
    else (if elems[0].tag in tags then [elems[0]] else []) + WithTags(elems[1..], tags)
  }

  /** The filter keeps document order and multiplicity: filtering a list split
      in two is filtering each part, one after the other */
  lemma {:induction false} WithTagsAppend(a: seq<Element>, b: seq<Element>, tags: set<string>)
    ensures WithTags(a + b, tags) == WithTags(a, tags) + WithTags(b, tags)
    decreases |a|
  {
    if a == [] {
      assert a + b == b;
    } else {
      assert (a + b)[0] == a[0];
      assert (a + b)[1..] == a[1..] + b;
      WithTagsAppend(a[1..], b, tags);
    }
  }

  /** One element is kept exactly when its tag is in the list. */
  lemma WithTagsSingle(e: Element, tags: set<string>)
    ensures WithTags([e], tags) == (if e.tag in tags then [e] else [])
  {
    assert [e][1..] == [];
  }

  /** Python's `xs[:n]`. */
  function Take<T>(xs: seq<T>, n: nat): (r: seq<T>)
    ensures |r| <= n && |r| <= |xs|
    ensures r == xs[..|r|]
    ensures |xs| <= n ==> r == xs
    ensures |xs| > n ==> r == xs[..n]
  {
    if |xs| <= n then xs else xs[..n]
  }

}
