/** `parseCompanyCards` (main.js:9-50): find the cards of one listing page,
    read their fields, normalise them into records and keep the records that
    can be identified. Waiting for the page, the browser round trip and the
    clock are outside this model; the clock enters as the sequence of
    readings taken for the records in turn. */
module Pipeline {
  import opened Wrappers
  import opened Dom
  import opened Url
  import opened Selection
  import opened Cards
  import opened Records

  /** A queued listing request: its URL and the district from its user data
      (`None` when the user data has none). */
  datatype Request = Request(url: string, district: Option<string>)

  /** The loaded listing page: its `body` element and its query capability. */
  datatype Page = Page(body: Element, query: Query)

  /** `request.userData.district || null` and `request.url`: an empty
      district string counts as no district. */
  function ListingOf(req: Request): (ctx: Listing)
    ensures ctx.sourceUrl == req.url
    ensures ctx.district.Some? <==> req.district.Some? && req.district.value != ""
    ensures ctx.district.Some? ==> ctx.district == req.district
  {
    var d := if req.district.Some? && req.district.value != "" then req.district else None;
    Listing(d, req.url)
  }

  /** The raw cards of a page: one per element found by `findCards`, in
      document order. */
  function ExtractCards(page: Page): (cards: seq<RawCard>)
    ensures var els := FindCards(page.query, page.body, CardSelectors);
      |cards| == |els| && forall i :: 0 <= i < |els| ==> cards[i] == ExtractCard(page.query, els[i])
  {
    ExtractAll(page.query, FindCards(page.query, page.body, CardSelectors))
  }

  /** `cards.map(el => …)`. */
  function ExtractAll(q: Query, els: seq<Element>): (cards: seq<RawCard>)
    ensures |cards| == |els| && forall i :: 0 <= i < |els| ==> cards[i] == ExtractCard(q, els[i])
  {
    if els == [] then [] else [ExtractCard(q, els[0])] + ExtractAll(q, els[1..])
  }

  /** `items.map(x => …)`: one record per raw card, in card order, all
      carrying the page's district and URL; record `i` is stamped with
      clock reading `i`. */
  function NormalizeAll(ctx: Listing, resolve: Resolver, clock: nat -> string, raws: seq<RawCard>): (rs: seq<Record>)
    ensures |rs| == |raws|
    ensures forall i :: 0 <= i < |raws| ==> rs[i] == NormalizeCard(ctx, resolve, raws[i], clock(i))
    ensures forall r :: r in rs ==> r.district == ctx.district && r.sourceUrl == ctx.sourceUrl
  {
    seq(|raws|, i requires 0 <= i < |raws| => NormalizeCard(ctx, resolve, raws[i], clock(i)))
  }

  /** `parseCompanyCards`: the identifiable records of the page's cards, in
      card order. */
  function ParseCompanyCards(page: Page, req: Request, resolve: Resolver, clock: nat -> string): (out: seq<Record>)
    ensures forall r :: r in out ==> r.district == ListingOf(req).district && r.sourceUrl == req.url
    ensures forall r :: r in out ==> Kept(r)
    ensures IsSubsequence(out, NormalizeAll(ListingOf(req), resolve, clock, ExtractCards(page)))
    ensures forall r :: Kept(r) ==>
      multiset(out)[r] == multiset(NormalizeAll(ListingOf(req), resolve, clock, ExtractCards(page)))[r]
  {
    var normalized := NormalizeAll(ListingOf(req), resolve, clock, ExtractCards(page));
    var out := KeepIdentifiable(normalized);
    assert forall r :: r in out ==> r in normalized;
    out
  }

  /** When the empty link resolves against the page URL, no record is
      dropped: the output has one record per card, in card order. For a
      hierarchical (http/https) page URL the empty href resolves to that URL
      without its fragment, which is never empty. */
  lemma ResolvableSourceKeepsEveryCard(page: Page, req: Request, resolve: Resolver, clock: nat -> string)
    requires NeverEmpty(resolve)
    requires resolve("", req.url).Some?
    ensures ParseCompanyCards(page, req, resolve, clock) == NormalizeAll(ListingOf(req), resolve, clock, ExtractCards(page))
    ensures |ParseCompanyCards(page, req, resolve, clock)| == |FindCards(page.query, page.body, CardSelectors)|
  {
    var ctx := ListingOf(req);
    var raws := ExtractCards(page);
    var rs := NormalizeAll(ctx, resolve, clock, raws);
    forall i | 0 <= i < |rs|
      ensures Kept(rs[i])
    {
      DroppedIff(ctx, resolve, raws[i], clock(i));
    }
    KeepIdentifiableAllKept(rs);
  }
}
