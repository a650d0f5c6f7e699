/**
 * The XML document as a finished tree of elements. The streaming parser and the
 * memory it releases are not modelled: an element is its tag, its attribute map
 * and its direct children, fully read.
 */
module Xml {
  import opened Wrappers

  datatype Element = Element(tag: string, attrib: map<string, string>, children: seq<Element>)

  /** `elem.attrib.get(name)`: the attribute's value, or `None` when it is absent. */
  function Attr(e: Element, name: string): (r: Option<string>)
    ensures r.Some? <==> name in e.attrib
    ensures r.Some? ==> r.value == e.attrib[name]
  {
    if name in e.attrib then Some(e.attrib[name]) else None
  }

  /**
   * The elements of the document in the order in which the parser reports their
   * `start` events: an element first, then the elements below it, child by child.
   */
  function StartEvents(e: Element): seq<Element>
  {
    [e] + StartEventsOf(e.children)
  }

  function StartEventsOf(es: seq<Element>): seq<Element>
  {
    if es == [] then [] else StartEvents(es[0]) + StartEventsOf(es[1..])
  }

  /** The number of elements in the tree rooted at `e`. */
  function Size(e: Element): nat
  {
    1 + SizeOf(e.children)
  }

  function SizeOf(es: seq<Element>): nat
  {
    if es == [] then 0 else Size(es[0]) + SizeOf(es[1..])
  }

  /** Every element of the document raises exactly one `start` event. */
  lemma {:induction false} StartEventsVisitEveryElement(e: Element)
    ensures |StartEvents(e)| == Size(e) && StartEvents(e)[0] == e
  {
    StartEventsOfVisitEveryElement(e.children);
  }

  lemma {:induction false} StartEventsOfVisitEveryElement(es: seq<Element>)
    ensures |StartEventsOf(es)| == SizeOf(es)
  {
    if es != [] {
      StartEventsVisitEveryElement(es[0]);
      StartEventsOfVisitEveryElement(es[1..]);
    }
  }
}
