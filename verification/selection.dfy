/** The selection policies of the card extractor: the first card selector
    with any match (main.js:17), the first field selector whose first match
    has visible text (main.js:20), and the first anchor that links to a
    company detail page (main.js:26). */
module Selection {
  import opened Wrappers
  import opened Whitespace
  import opened Matching
  import opened Dom

  /** `selector` matches at least one element below `root`. */
  predicate HasMatches(q: Query, root: Element, sel: Selector) {
    q(root, sel) != []
  }

  /** `selectors[k]` is the earliest selector with a match. */
  ghost predicate FirstWithMatches(q: Query, root: Element, selectors: seq<Selector>, k: int) {
    && 0 <= k < |selectors|
    && HasMatches(q, root, selectors[k])
    && forall j :: 0 <= j < k ==> !HasMatches(q, root, selectors[j])
  }

  /** `findCards`: all matches of the earliest selector that has any, or no
      cards at all when no selector matches. */
  function FindCards(q: Query, root: Element, selectors: seq<Selector>): (cards: seq<Element>)
    ensures (forall k :: 0 <= k < |selectors| ==> !HasMatches(q, root, selectors[k])) ==> cards == []
    ensures cards != [] ==> exists k :: FirstWithMatches(q, root, selectors, k)
    ensures forall k :: FirstWithMatches(q, root, selectors, k) ==> cards == q(root, selectors[k])
  {
    if selectors == [] then []
    else if |q(root, selectors[0])| >= 1 then
      assert FirstWithMatches(q, root, selectors, 0);
      q(root, selectors[0])
    else
      var rest := FindCards(q, root, selectors[1..]);
      assert forall k :: FirstWithMatches(q, root, selectors, k) ==> FirstWithMatches(q, root, selectors[1..], k - 1);
      assert rest != [] ==> exists k :: FirstWithMatches(q, root, selectors, k) by {
        if rest != [] {
          var k :| FirstWithMatches(q, root, selectors[1..], k);
          assert FirstWithMatches(q, root, selectors, k + 1);
        }
      }
      rest
  }

  /** Selectors after the winning one are never consulted: appending more
      selectors of lower priority changes nothing once some selector
      (here `selectors[k]`) has a match. */
  lemma {:induction false} FindCardsIgnoresLaterSelectors(q: Query, root: Element, selectors: seq<Selector>, k: int, more: seq<Selector>)
    requires 0 <= k < |selectors| && HasMatches(q, root, selectors[k])
    ensures FindCards(q, root, selectors + more) == FindCards(q, root, selectors)
  {
    if |q(root, selectors[0])| >= 1 {
      assert (selectors + more)[0] == selectors[0];
    } else {
      assert (selectors + more)[1..] == selectors[1..] + more;
      FindCardsIgnoresLaterSelectors(q, root, selectors[1..], k - 1, more);
    }
  }

  /** The text of a node is visible: some character of it is not whitespace. */
  predicate HasText(n: Element) {
    !AllWhitespace(n.text)
  }

  /** Visible text is exactly what makes `(n.textContent || '').trim()` truthy. */
  lemma HasTextIffTrimmedNonEmpty(n: Element)
    ensures HasText(n) <==> Trim(n.text) != ""
  {
  }

  /** `selector`'s first match below `root` exists and has visible text. */
  predicate Usable(q: Query, root: Element, sel: Selector) {
    var n := QuerySelector(q, root, sel);
    n.Some? && HasText(n.value)
  }

  /** `selectors[k]` is the earliest usable selector. */
  ghost predicate FirstUsable(q: Query, root: Element, selectors: seq<Selector>, k: int) {
    && 0 <= k < |selectors|
    && Usable(q, root, selectors[k])
    && forall j :: 0 <= j < k ==> !Usable(q, root, selectors[j])
  }

  /** `pick`: the first match of the earliest usable selector, or nothing
      (`null`) when no selector is usable. A selector whose first match is
      blank is passed over even if a later match of it has text. */
  function Pick(q: Query, root: Element, selectors: seq<Selector>): (r: Option<Element>)
    ensures r.None? <==> forall k :: 0 <= k < |selectors| ==> !Usable(q, root, selectors[k])
    ensures r.Some? ==> exists k :: FirstUsable(q, root, selectors, k)
    ensures forall k :: FirstUsable(q, root, selectors, k) ==> r == QuerySelector(q, root, selectors[k])
  {
    if selectors == [] then None
    else if Usable(q, root, selectors[0]) then
      assert FirstUsable(q, root, selectors, 0);
      assert forall k :: FirstUsable(q, root, selectors, k) ==> k == 0;
      QuerySelector(q, root, selectors[0])
    else
      var rest := Pick(q, root, selectors[1..]);
      assert forall k :: FirstUsable(q, root, selectors, k) ==> rest == QuerySelector(q, root, selectors[k]) by {
        forall k | FirstUsable(q, root, selectors, k)
          ensures rest == QuerySelector(q, root, selectors[k])
        {
          assert selectors[1..][k - 1] == selectors[k];
          assert FirstUsable(q, root, selectors[1..], k - 1);
        }
      }
      assert rest.None? <==> forall k :: 0 <= k < |selectors| ==> !Usable(q, root, selectors[k]) by {
        assert forall k :: 1 <= k < |selectors| ==> selectors[1..][k - 1] == selectors[k];
      }
      assert rest.Some? ==> exists k :: FirstUsable(q, root, selectors, k) by {
        if rest.Some? {
          var k :| FirstUsable(q, root, selectors[1..], k);
          assert selectors[1..][k] == selectors[k + 1];
          assert FirstUsable(q, root, selectors, k + 1);
        }
      }
      rest
  }

  /** The path marker that identifies a link to a company detail page. */
  const DetailMarker: string := "/firma/"

  /** `(a.getAttribute('href') || '')`. */
  function Href(a: Element): string {
    GetAttribute(a, "href").GetOr("")
  }

  /** An anchor whose link target contains the detail-page marker. */
  predicate IsDetailLink(a: Element) {
    Contains(Href(a), DetailMarker)
  }

  /** `anchors[i]` is the earliest detail link. */
  ghost predicate FirstDetailLink(anchors: seq<Element>, i: int) {
    && 0 <= i < |anchors|
    && IsDetailLink(anchors[i])
    && forall j :: 0 <= j < i ==> !IsDetailLink(anchors[j])
  }

  /** The detail-link `find`: the first anchor in document order that links
      to a detail page, or nothing when none does. */
  function FindDetailLink(anchors: seq<Element>): (r: Option<Element>)
    ensures r.None? <==> forall i :: 0 <= i < |anchors| ==> !IsDetailLink(anchors[i])
    ensures r.Some? ==> IsDetailLink(r.value) && exists i :: FirstDetailLink(anchors, i)
    ensures forall i :: FirstDetailLink(anchors, i) ==> r == Some(anchors[i])
  {
    if anchors == [] then None
    else if IsDetailLink(anchors[0]) then
      assert FirstDetailLink(anchors, 0);
      Some(anchors[0])
    else
      var rest := FindDetailLink(anchors[1..]);
      assert forall i :: FirstDetailLink(anchors, i) ==> FirstDetailLink(anchors[1..], i - 1);
      assert rest.Some? ==> exists i :: FirstDetailLink(anchors, i) by {
        if rest.Some? {
          var i :| FirstDetailLink(anchors[1..], i);
          assert FirstDetailLink(anchors, i + 1);
        }
      }
      rest
  }
}
