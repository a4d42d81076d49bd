/** `toAbs` (main.js:7): resolve a possibly relative link against the page
    URL, falling back to the raw link when resolution throws. */
module Url {
  import opened Wrappers

  /** `new URL(href, base).toString()` as an outside capability: `Some` of
      the serialised absolute URL, or `None` where the constructor throws.
      URL parsing itself is not part of this model. */
  type Resolver = (string, string) -> Option<string>

  /** Resolution never yields the empty string, as no serialised absolute
      URL is empty. */
  ghost predicate NeverEmpty(resolve: Resolver) {
    forall href, base :: resolve(href, base) != Some("")
  }

  /** `toAbs`: never fails. The result is the resolved URL when resolution
      succeeds and otherwise the raw link itself (`href || ''` is `href` for
      a string). */
  function ToAbs(resolve: Resolver, base: string, href: string): (r: string)
    ensures resolve(href, base).Some? ==> Some(r) == resolve(href, base)
    ensures resolve(href, base).None? ==> r == href
  {
    match resolve(href, base)
    case Some(u) => u
    case None => href
  }

  /** With a resolver that never yields "", `toAbs` gives "" exactly for an
      empty link that fails to resolve. */
  lemma ToAbsEmpty(resolve: Resolver, base: string, href: string)
    requires NeverEmpty(resolve)
    ensures ToAbs(resolve, base, href) == "" <==> href == "" && resolve("", base).None?
  {
    if resolve(href, base).Some? {
      assert resolve(href, base) != Some("");
    }
  }
}
