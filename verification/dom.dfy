/** The page seen through the browser's query interface: element snapshots,
    attribute lookup and selector queries. Real CSS-selector matching and
    DOM traversal are outside this model; a query is a given function. */
module Dom {
  import opened Wrappers

  /** One element: an identity, its `textContent` and its attributes. */
  datatype Element = Element(id: nat, text: string, attributes: map<string, string>)

  /** A CSS selector, kept as its source text. */
  type Selector = string

  /** `root.querySelectorAll(selector)`: the matching descendants of `root`
      in document order. */
  type Query = (Element, Selector) -> seq<Element>

  /** `e.getAttribute(name)`: `None` plays the part of `null`. */
  function GetAttribute(e: Element, name: string): (r: Option<string>)
    ensures r.Some? <==> name in e.attributes
    ensures r.Some? ==> r.value == e.attributes[name]
  {
    if name in e.attributes then Some(e.attributes[name]) else None
  }

  /** `root.querySelector(selector)`: the first match in document order,
      `None` when there is none. */
  function QuerySelector(q: Query, root: Element, sel: Selector): (r: Option<Element>)
    ensures r.None? <==> q(root, sel) == []
    ensures r.Some? ==> r.value == q(root, sel)[0]
  {
    if q(root, sel) == [] then None else Some(q(root, sel)[0])
  }

  /** JavaScript `a || b` for a value that is a string or `null`: `a` when it
      is a non-empty string, `b` otherwise. */
  function OrElse(a: Option<string>, b: string): (r: string)
    ensures a.Some? && a.value != "" ==> r == a.value
    ensures a.None? || a.value == "" ==> r == b
  {
    if a.Some? && a.value != "" then a.value else b
  }
}
