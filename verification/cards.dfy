/** Raw field extraction from one listing card (main.js:16-33): the
    selector lists in priority order and the mapping from a card element to
    its raw field strings, trimmed at both ends and otherwise as found. */
module Cards {
  import opened Wrappers
  import opened Whitespace
  import opened Dom
  import opened Selection

  const CardSelectors: seq<Selector> := [
    ".result-item", ".company-list .item", "article", "li.search-result",
    "li.result", "[itemtype*=\"LocalBusiness\"]", "[data-company]"
  ]
  const NameSelectors: seq<Selector> := [
    ".company-name", "h2 a", "h2", "h3 a", "h3", "a.result-title", "[itemprop=\"name\"]"
  ]
  const AddressSelectors: seq<Selector> := [
    ".address", ".company-address", "[itemprop=\"address\"]", ".adr", ".street-address"
  ]
  const PhoneSelectors: seq<Selector> := [
    "a[href^=\"tel:\"]", ".phone", "[itemprop=\"telephone\"]"
  ]
  const EmailSelectors: seq<Selector> := [
    "a[href^=\"mailto:\"]", ".email", "[itemprop=\"email\"]"
  ]
  const WebsiteSelectors: seq<Selector> := [
    "a[href^=\"http\"]", "a.external", "[itemprop=\"url\"]"
  ]
  const AnchorSelector: Selector := "a"

  /** The fields read from one card, each trimmed but otherwise as found. */
  datatype RawCard = RawCard(
    name: string,
    address: string,
    phone: string,
    email: string,
    websiteHref: string,
    detailHref: string)

  /** `v` is what a text field reads: the trimmed text of the first match of
      the earliest usable selector, or "" when no selector is usable. */
  ghost predicate TextField(q: Query, card: Element, selectors: seq<Selector>, v: string) {
    && (v == "" <==> forall k :: 0 <= k < |selectors| ==> !Usable(q, card, selectors[k]))
    && forall k :: FirstUsable(q, card, selectors, k) ==>
         v == Trim(QuerySelector(q, card, selectors[k]).value.text)
  }

  /** The trimmed text of a picked node, "" for none. */
  function TextOf(n: Option<Element>): string {
    match n
    case Some(e) => Trim(e.text)
    case None => ""
  }

  /** The email value of a picked node: its `href` when that is a non-empty
      string, else its text; trimmed. */
  function EmailOf(n: Option<Element>): string {
    match n
    case Some(e) => Trim(OrElse(GetAttribute(e, "href"), e.text))
    case None => ""
  }

  /** The website value of a picked node: only its `href`, trimmed. */
  function WebsiteOf(n: Option<Element>): string {
    match n
    case Some(e) => Trim(Href(e))
    case None => ""
  }

  /** The trimmed `href` of a found detail anchor, "" for none. */
  function HrefOf(n: Option<Element>): string {
    match n
    case Some(a) => Trim(Href(a))
    case None => ""
  }

  /** The card-to-fields map of main.js:19-33. Name, address and phone are
      text fields; email prefers the `href` attribute over the text; the
      website comes from the `href` alone, of a node chosen for its text;
      the detail link is the trimmed `href` of the first anchor linking to a
      detail page, and is "" exactly when no anchor does. */
  function ExtractCard(q: Query, card: Element): (c: RawCard)
    ensures Trimmed(c.name) && Trimmed(c.address) && Trimmed(c.phone)
    ensures Trimmed(c.email) && Trimmed(c.websiteHref) && Trimmed(c.detailHref)
  {
    var nameNode := Pick(q, card, NameSelectors);
    var addressNode := Pick(q, card, AddressSelectors);
    var phoneNode := Pick(q, card, PhoneSelectors);
    var emailNode := Pick(q, card, EmailSelectors);
    var websiteNode := Pick(q, card, WebsiteSelectors);
    var detailLinkNode := FindDetailLink(q(card, AnchorSelector));
    RawCard(
      TextOf(nameNode),
      TextOf(addressNode),
      TextOf(phoneNode),
      EmailOf(emailNode),
      WebsiteOf(websiteNode),
      HrefOf(detailLinkNode))
  }

  /** Name, address and phone are text fields of their selector lists. */
  lemma ExtractCardTextFields(q: Query, card: Element)
    ensures TextField(q, card, NameSelectors, ExtractCard(q, card).name)
    ensures TextField(q, card, AddressSelectors, ExtractCard(q, card).address)
    ensures TextField(q, card, PhoneSelectors, ExtractCard(q, card).phone)
  {
    PickedTextField(q, card, NameSelectors);
    PickedTextField(q, card, AddressSelectors);
    PickedTextField(q, card, PhoneSelectors);
  }

  /** The email is "" when no email selector is usable; otherwise it is the
      `href` of the picked node when that is a non-empty string, and the
      node's text only when it is not. */
  lemma ExtractCardEmail(q: Query, card: Element)
    ensures var c := ExtractCard(q, card);
      && ((forall k :: 0 <= k < |EmailSelectors| ==> !Usable(q, card, EmailSelectors[k])) ==> c.email == "")
      && forall k :: FirstUsable(q, card, EmailSelectors, k) ==>
           var n := QuerySelector(q, card, EmailSelectors[k]).value;
           && (GetAttribute(n, "href").Some? && GetAttribute(n, "href").value != "" ==> c.email == Trim(n.attributes["href"]))
           && (GetAttribute(n, "href").None? || GetAttribute(n, "href").value == "" ==> c.email == Trim(n.text))
  {
  }

  /** The website is read from the `href` alone ("" without one) of the node
      picked for its visible text, and is "" when no selector is usable. */
  lemma ExtractCardWebsite(q: Query, card: Element)
    ensures var c := ExtractCard(q, card);
      && ((forall k :: 0 <= k < |WebsiteSelectors| ==> !Usable(q, card, WebsiteSelectors[k])) ==> c.websiteHref == "")
      && forall k :: FirstUsable(q, card, WebsiteSelectors, k) ==>
           var n := QuerySelector(q, card, WebsiteSelectors[k]).value;
           c.websiteHref == (if "href" in n.attributes then Trim(n.attributes["href"]) else "")
  {
  }

  /** The detail href is the trimmed `href` of the first anchor linking to a
      detail page, and it is "" exactly when no anchor of the card does. */
  lemma ExtractCardDetailHref(q: Query, card: Element)
    ensures var anchors := q(card, AnchorSelector);
      && (ExtractCard(q, card).detailHref == "" <==> forall i :: 0 <= i < |anchors| ==> !IsDetailLink(anchors[i]))
      && forall i :: FirstDetailLink(anchors, i) ==> ExtractCard(q, card).detailHref == Trim(Href(anchors[i]))
  {
    var link := FindDetailLink(q(card, AnchorSelector));
    assert ExtractCard(q, card).detailHref == HrefOf(link);
    DetailHrefNotBlank(link);
  }

  /** The trimmed text of what `pick` returns is a text field. */
  lemma PickedTextField(q: Query, card: Element, selectors: seq<Selector>)
    ensures TextField(q, card, selectors, TextOf(Pick(q, card, selectors)))
  {
    var n := Pick(q, card, selectors);
    if n.Some? {
      var k :| FirstUsable(q, card, selectors, k);
      assert n == QuerySelector(q, card, selectors[k]);
    }
  }

  /** A detail link's trimmed `href` is never empty: it contains the marker. */
  lemma DetailHrefNotBlank(a: Option<Element>)
    requires a.Some? ==> IsDetailLink(a.value)
    ensures a.Some? ==> Trim(Href(a.value)) != ""
  {
    if a.Some? {
      Matching.ContainsSolidNotBlank(Href(a.value), DetailMarker);
    }
  }
}
