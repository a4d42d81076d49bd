/** Normalisation of raw cards into output records and the final filter
    (main.js:37-49). */
module Records {
  import opened Wrappers
  import opened Whitespace
  import opened Words
  import opened Matching
  import opened Url
  import opened Cards

  /** What every card of one listing page shares: the district the page was
      queued for (`null` when none was given) and the page URL. */
  datatype Listing = Listing(district: Option<string>, sourceUrl: string)

  /** One output record (the object built at main.js:37-47). */
  datatype Record = Record(
    district: Option<string>,
    sourceUrl: string,
    name: string,
    address: string,
    phone: string,
    email: string,
    website: string,
    detailUrl: string,
    timestamp: string)

  const PhoneScheme: string := "tel:"
  const EmailScheme: string := "mailto:"

  /** The per-card normalisation of main.js:37-47. `stamp` is the clock
      reading taken for this record. */
  function NormalizeCard(ctx: Listing, resolve: Resolver, raw: RawCard, stamp: string): (r: Record)
    ensures r.district == ctx.district && r.sourceUrl == ctx.sourceUrl && r.timestamp == stamp
    ensures Canonical(r.name) && Canonical(r.address)
    ensures r.name == "" <==> AllWhitespace(raw.name)
  {
    Record(
      ctx.district,
      ctx.sourceUrl,
      Clean(raw.name),
      Clean(raw.address),
      StripPrefixIgnoringCase(Clean(raw.phone), PhoneScheme),
      StripPrefixIgnoringCase(Clean(raw.email), EmailScheme),
      ToAbs(resolve, ctx.sourceUrl, raw.websiteHref),
      ToAbs(resolve, ctx.sourceUrl, raw.detailHref),
      stamp)
  }

  /** Name and address are the words of the raw value joined by single spaces. */
  lemma NormalizedNameAndAddressAreWords(ctx: Listing, resolve: Resolver, raw: RawCard, stamp: string)
    ensures NormalizeCard(ctx, resolve, raw, stamp).name == JoinWords(WordsOf(raw.name))
    ensures NormalizeCard(ctx, resolve, raw, stamp).address == JoinWords(WordsOf(raw.address))
  {
    CleanIsJoinedWords(raw.name);
    CleanIsJoinedWords(raw.address);
  }

  /** Website and detail URL are the raw links resolved against the page
      URL: the resolved URL when resolution succeeds, the raw link otherwise. */
  lemma NormalizedLinks(ctx: Listing, resolve: Resolver, raw: RawCard, stamp: string)
    ensures var r := NormalizeCard(ctx, resolve, raw, stamp);
      && (resolve(raw.websiteHref, ctx.sourceUrl).Some? ==> Some(r.website) == resolve(raw.websiteHref, ctx.sourceUrl))
      && (resolve(raw.websiteHref, ctx.sourceUrl).None? ==> r.website == raw.websiteHref)
      && (resolve(raw.detailHref, ctx.sourceUrl).Some? ==> Some(r.detailUrl) == resolve(raw.detailHref, ctx.sourceUrl))
      && (resolve(raw.detailHref, ctx.sourceUrl).None? ==> r.detailUrl == raw.detailHref)
  {
  }

  /** Phone and email are the cleaned raw value with at most one leading
      scheme removed: when the cleaned value starts with the scheme in any
      letter case, exactly that prefix is gone and the rest is untouched;
      otherwise the cleaned value is kept whole. */
  lemma NormalizedContactFields(ctx: Listing, resolve: Resolver, raw: RawCard, stamp: string)
    ensures var r := NormalizeCard(ctx, resolve, raw, stamp);
      var phone := Clean(raw.phone);
      var email := Clean(raw.email);
      && (StartsWithIgnoringCase(phone, PhoneScheme) ==> phone == phone[..|PhoneScheme|] + r.phone)
      && (!StartsWithIgnoringCase(phone, PhoneScheme) ==> r.phone == phone)
      && (StartsWithIgnoringCase(email, EmailScheme) ==> email == email[..|EmailScheme|] + r.email)
      && (!StartsWithIgnoringCase(email, EmailScheme) ==> r.email == email)
  {
    StripPrefixSplits(Clean(raw.phone), PhoneScheme);
    StripPrefixSplits(Clean(raw.email), EmailScheme);
  }

  /** After the scheme is removed, phone and email still have no whitespace
      run longer than one space and no trailing whitespace; one leading space
      may remain (`tel: 0316` becomes ` 0316`). */
  lemma NormalizedContactShape(ctx: Listing, resolve: Resolver, raw: RawCard, stamp: string)
    ensures Squeezed(NormalizeCard(ctx, resolve, raw, stamp).phone)
    ensures Squeezed(NormalizeCard(ctx, resolve, raw, stamp).email)
    ensures NoTrailingWhitespace(NormalizeCard(ctx, resolve, raw, stamp).phone)
    ensures NoTrailingWhitespace(NormalizeCard(ctx, resolve, raw, stamp).email)
  {
    StripPrefixKeepsShape(Clean(raw.phone), PhoneScheme);
    StripPrefixKeepsShape(Clean(raw.email), EmailScheme);
  }

  /** A record survives the filter of main.js:49 when it has a name or a
      detail URL. */
  predicate Kept(r: Record) {
    r.name != "" || r.detailUrl != ""
  }

  /** `a` is `b` with some elements left out, order kept. */
  predicate IsSubsequence<T(==)>(a: seq<T>, b: seq<T>)
    decreases |b|
  {
    if a == [] then true
    else if b == [] then false
    else (a[0] == b[0] && IsSubsequence(a[1..], b[1..])) || IsSubsequence(a, b[1..])
  }

  /** `normalized.filter((r) => r.name || r.detailUrl)`: the kept records,
      in their original order, each as often as in the input, and nothing else. */
  function KeepIdentifiable(rs: seq<Record>): (out: seq<Record>)
    ensures IsSubsequence(out, rs)
    ensures forall r :: r in out <==> r in rs && Kept(r)
    ensures forall r :: Kept(r) ==> multiset(out)[r] == multiset(rs)[r]
  {
    if rs == [] then []
    else
      var rest := KeepIdentifiable(rs[1..]);
      assert rs == [rs[0]] + rs[1..];
      if Kept(rs[0]) then [rs[0]] + rest
      else
        assert rest == [] || IsSubsequence(rest, rs[1..]);
        rest
  }

  /** With a resolver that never yields "", a record is dropped exactly when
      its raw name is blank, its raw detail href is empty, and the empty href
      fails to resolve against the page URL. For a hierarchical (http/https)
      page URL the empty href resolves to that URL without its fragment,
      which is never empty, so such a page drops no record. */
  lemma DroppedIff(ctx: Listing, resolve: Resolver, raw: RawCard, stamp: string)
    requires NeverEmpty(resolve)
    ensures !Kept(NormalizeCard(ctx, resolve, raw, stamp)) <==>
      AllWhitespace(raw.name) && raw.detailHref == "" && resolve("", ctx.sourceUrl).None?
  {
    ToAbsEmpty(resolve, ctx.sourceUrl, raw.detailHref);
  }

  /** When every record is kept, the filter returns its input unchanged. */
  lemma {:induction false} KeepIdentifiableAllKept(rs: seq<Record>)
    requires forall i :: 0 <= i < |rs| ==> Kept(rs[i])
    ensures KeepIdentifiable(rs) == rs
  {
    if rs != [] {
      KeepIdentifiableAllKept(rs[1..]);
      assert rs == [rs[0]] + rs[1..];
    }
  }
}
