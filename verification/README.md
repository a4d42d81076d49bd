# Listing-card extraction of the WKO company crawler, in Dafny

The crawler visits company listing pages of the Austrian chamber of commerce
directory and turns every company card on a page into one output record.
This project models the part of `main.js` that does that work once the page
is loaded: `clean` (whitespace normalisation), `toAbs` (link resolution with
fallback), and the body of `parseCompanyCards`. That body has four steps:

- locate the cards with the first card selector that matches anything (`findCards`);
- read each card's fields with priority-ordered selectors (`pick`, and the
  search for the first anchor that links to a `/firma/` detail page);
- normalise each raw card into a record that carries the page's district and URL;
- keep only the records that have a name or a detail URL.

The browser is replaced by a query capability. `Dom.Query` maps a root
element and a selector to the matching elements in document order. Each
`Dom.Element` is a snapshot of one element's identity, `textContent` and
attributes. URL resolution is the parameter `Url.Resolver`, which returns
`None` where `new URL(href, base)` would throw. The clock is the parameter
`clock`: reading `i` stamps record `i`.

Modules, leaves first:

| file | module | contents |
|---|---|---|
| wrappers.dfy | Wrappers | `Option` (stands for `null`) |
| whitespace.dfy | Whitespace | the `\s` / `trim()` character class, `Trim`, `Collapse`, `Clean`, shape lemmas |
| words.dfy | Words | an independent reference for `clean`: the words of the input joined by single spaces |
| matching.dfy | Matching | `includes`, case-insensitive anchored prefix removal (`/^tel:/i`, `/^mailto:/i`) |
| url.dfy | Url | `toAbs` over an abstract resolver |
| dom.dfy | Dom | elements, `getAttribute`, `querySelector`, JavaScript `a \|\| b` |
| selection.dfy | Selection | `findCards`, `pick`, the detail-link `find` |
| cards.dfy | Cards | selector constants, the raw card, card-to-fields extraction |
| records.dfy | Records | per-card normalisation, the record filter |
| pipeline.dfy | Pipeline | `parseCompanyCards` end to end |

How the fields are chosen and read:

- `pick` chooses the name, address, phone, email and website nodes by their
  visible text only (main.js:20).
- The email value then prefers the node's `href` to its text (main.js:30).
- The website value reads only the `href` (main.js:31), so a website link
  with blank text is passed over even when it has an `href`.
- The detail anchor is chosen by its `href`: the first anchor whose `href`
  contains `/firma/` (main.js:26).
- An empty `district` in the request's user data becomes `null` (`|| null`,
  main.js:11); `Pipeline.ListingOf` carries it and the request URL.
- `_ts` is read once per record, not once per page.

The DOM stand-ins in `Dom` follow the browser directly: `GetAttribute` is
`None` for an absent attribute and the value otherwise, `QuerySelector` is
the first element of the query's result or `None` when it is empty, and
`OrElse` is JavaScript `a || b` on a string-or-null.

A consequence that the proofs make explicit: for a hierarchical (http/https)
page URL, the empty href resolves to that URL without its fragment, which is
never empty. An empty detail href therefore still yields a non-empty
`detailUrl`, and the final filter keeps every card
(`Pipeline.ResolvableSourceKeepsEveryCard`). A record is dropped only when
its name is blank and the empty href fails to resolve (`Records.DroppedIff`).
Both lemmas state the resolver property they need as a precondition.

Removing `tel:` happens after `clean`, so `"tel: 0316"` becomes `" 0316"`:
one leading space can remain. `Records.NormalizedContactShape` states exactly
what survives: no run of two whitespace characters and no trailing whitespace.

## Model

| member | source | states |
|---|---|---|
| Whitespace.Trim | main.js:6 | `trim()` leaves no whitespace at either end, and gives "" exactly for a blank input |
| Whitespace.TrimKeepsMiddle | main.js:6 | `trim()` keeps one contiguous stretch of its input and drops only whitespace before and after it |
| Words.TrimAround | main.js:6 | trimming a string made of whitespace, then a stretch with no whitespace at either end, then whitespace, gives back exactly that stretch |
| Whitespace.CollapseShape | main.js:6 | replacing each `\s+` run by one space leaves only plain spaces, never two whitespace characters in a row, keeps emptiness and the class of the first character, and keeps blankness both ways |
| Whitespace.Clean | main.js:6 | `clean` output has single spaces between words only and no whitespace at either end; it is "" if and only if the input is empty or all whitespace |
| Whitespace.CleanCanonical | main.js:6 | a string already in that shape is its own `clean` |
| Whitespace.CleanIdempotent | main.js:6 | `clean(clean(s)) == clean(s)` for every string |
| Words.CleanIsJoinedWords | main.js:6 | `clean(s)` equals the maximal non-whitespace runs of `s` joined by one space each, an independent definition of the same function |
| Matching.FoldAsciiSame | main.js:42-43 | two characters fold alike exactly when they are equal or the same ASCII letter in different case; when one of them is ASCII, as every character of `tel:` and `mailto:` is, this is the `/i` comparison |
| Matching.StripPrefixIgnoringCase | main.js:42-43 | `replace(/^p/i, '')` returns a suffix of its input; it removes nothing or exactly `|p|` characters, and removes them if and only if the input starts with `p` ignoring ASCII case |
| Matching.StripPrefixSplits | main.js:42-43 | on a match the input is the matched prefix followed by the result; otherwise the result is the input |
| Matching.ContainsSolidNotBlank | main.js:26 | a string that contains `/firma/` does not trim to "" |
| Url.ToAbs | main.js:7 | `toAbs` never fails: it yields the resolved URL when resolution succeeds and the raw href otherwise |
| Url.ToAbsEmpty | main.js:7 | with a resolver that never yields "", `toAbs` is "" if and only if the href is empty and the empty href does not resolve |
| Selection.FindCards | main.js:16-17 | `findCards` returns all matches of the earliest selector with a match, or no cards when no selector matches |
| Selection.FindCardsIgnoresLaterSelectors | main.js:17 | once a selector has matched, appending more selectors does not change the result |
| Selection.Pick | main.js:20 | `pick` is `null` if and only if no selector's first match has visible text; otherwise it is the first match of the earliest such selector |
| Selection.FindDetailLink | main.js:26 | the detail-link search yields nothing if and only if no anchor's href contains `/firma/`; otherwise it yields the first such anchor in document order |
| Cards.ExtractCard | main.js:27-33 | every raw field is trimmed at both ends |
| Cards.ExtractCardTextFields | main.js:21-29 | name, address and phone are the trimmed text of the picked node; each is "" if and only if no selector of its list has a first match with visible text |
| Cards.ExtractCardEmail | main.js:24-30 | email is "" without a usable node; with one, it is the node's `href` when that is a non-empty string and its text otherwise, trimmed |
| Cards.ExtractCardWebsite | main.js:25-31 | website is "" without a usable node; with one, it is the node's trimmed `href`, or "" when the node has none |
| Cards.ExtractCardDetailHref | main.js:26-32 | the detail href is the trimmed `href` of the first anchor that links to a detail page, and is "" if and only if no anchor of the card does |
| Records.NormalizeCard | main.js:37-47 | every record carries the page's district, URL and its own clock reading; name and address are canonical; the name is "" if and only if the raw name is blank |
| Records.NormalizedNameAndAddressAreWords | main.js:40-41 | the record's name and address are the words of the raw values joined by single spaces |
| Records.NormalizedLinks | main.js:44-45 | website and detail URL are the raw links resolved against the page URL: the resolved URL when resolution succeeds, the raw link itself when it throws |
| Records.NormalizedContactFields | main.js:42-43 | phone and email are `clean(raw)` with one leading `tel:` or `mailto:` removed in any letter case when present; the rest is unchanged, and without the prefix the cleaned value is kept whole |
| Records.NormalizedContactShape | main.js:42-43 | phone and email have no whitespace run longer than one space and no trailing whitespace |
| Records.KeepIdentifiable | main.js:49 | the filter returns an order-preserving subsequence; it contains a record if and only if the input does and the record has a name or a detail URL, and it keeps every such record as often as the input has it |
| Records.DroppedIff | main.js:45-49 | with a resolver that never yields "", a record is dropped if and only if its raw name is blank, its detail href is empty, and the empty href fails to resolve against the page URL |
| Records.KeepIdentifiableAllKept | main.js:49 | when every record has a name or a detail URL, the filter returns its input unchanged |
| Pipeline.ExtractCards | main.js:18-19 | one raw card per element found by `findCards`, in the same order |
| Pipeline.NormalizeAll | main.js:37-39 | one record per raw card in card order, all with the same district and source URL |
| Pipeline.ParseCompanyCards | main.js:9-50 | the output is an order-preserving subsequence of the per-card records; it holds exactly the records with a name or a detail URL, each as often as it occurs; all carry the page's district and URL |
| Pipeline.ResolvableSourceKeepsEveryCard | main.js:44-49 | when the empty href resolves against the page URL, no record is dropped and the output has exactly one record per card |

## Left out

- Apify and crawlee plumbing (`Actor.main`, the request queue, the
  Playwright crawler, `Dataset.pushData`, proxy settings, concurrency,
  `failedRequestHandler`, main.js:2-3, main.js:52-88): input/output and
  scheduling done by outside libraries.
- `page.waitForSelector('body', …)` and the `$$eval` round trip
  (main.js:12-15): the model starts from the loaded `body` element and its
  query capability. The fallback `bodyEls[0] || document.body` is covered by
  taking the body element as given.
- `SLEEP` (main.js:5): a timer that the modelled code never calls.
- URL parsing inside `new URL` (main.js:7): a foreign library. It is the
  parameter `Url.Resolver`, and the lemmas that need a property of it say so
  in their preconditions.
- `new Date().toISOString()` (main.js:46): wall-clock time, taken as the
  parameter `clock`.
- CSS selector matching and DOM traversal: the selectors are kept as text,
  and `Dom.Query` stands for `querySelectorAll`.
- Strings are sequences of Unicode scalar values, not UTF-16 code units.
  Whitespace is the fixed set of code points that `\s` and `trim()` use
  under Unicode 6.3 and later. Case-insensitive matching folds ASCII letters
  only, which is exact for the patterns `tel:` and `mailto:`.
- Selection.Pick: visible text is stated as "not all whitespace".
  `Selection.HasTextIffTrimmedNonEmpty` shows this is the same as the
  source's truthy `trim()` result.
- Cards.ExtractCard: its own contract states only that every field is
  trimmed. The field-by-field behaviour is stated by the `ExtractCard…`
  lemmas listed above.
- Load-more pagination, address segmentation, label/value and identifier
  harvesting on detail pages, and detail-stage merging are not in `main.js`
  and are not part of this model.
