/**
 * The abstract page the handlers see. Fetching and CSS matching belong to the
 * scraping libraries and are not modelled: a visit hands over the matched elements,
 * each with the readings the handlers take from it.
 */
module Page {
  import opened Wrappers

  /** One attribute of an HTML node, as the parser keeps it (key and raw value). */
  datatype Attribute = Attribute(key: string, val: string)

  /**
   * A matched element: its text content, the text of its `title` descendants
   * (colly's ChildText("title")) and its attributes in document order.
   */
  datatype Element = Element(text: string, titleText: string, attrs: seq<Attribute>)

  /** The position of the first attribute named `key`: the one Attr lookups return. */
  function FindAttr(attrs: seq<Attribute>, key: string): (r: Option<nat>)
    ensures r.None? <==> forall k :: 0 <= k < |attrs| ==> attrs[k].key != key
    ensures r.Some? ==> r.value < |attrs| && attrs[r.value].key == key
    ensures r.Some? ==> forall k :: 0 <= k < r.value ==> attrs[k].key != key
  {
    if |attrs| == 0 then None
    else if attrs[0].key == key then Some(0)
    else match FindAttr(attrs[1..], key)
      case None => None
      case Some(k) => Some(k + 1)
  }

  /** goquery's Selection.Attr: the value of the first attribute named `key`, if any. */
  function AttrValue(e: Element, key: string): Option<string> {
    match FindAttr(e.attrs, key)
    case None => None
    case Some(k) => Some(e.attrs[k].val)
  }
}
