/** The parsed response document as the decoder sees it. Parsing the bytes
    of a response into this tree is the XML library's job and is not part of
    this model; the tree is an input. */
module Xml {
  import opened Wrappers

  /** One element of a parsed document, as ElementTree presents it: its tag,
      its attributes, its text (None when the element holds no text at all)
      and its child elements in document order. */
  datatype Element = Element(
    tag: string,
    attributes: map<string, string>,
    text: Option<string>,
    children: seq<Element>)
  {
    /** `element.get(name)`: the attribute's value, or None when absent. */
    function Get(name: string): Option<string> {
      if name in attributes then Some(attributes[name]) else None
    }
  }

  /** A text-only element without children, the shape of every field in a
      response record and of every message in an error document. */
  function Leaf(tag: string, attributes: map<string, string>, text: Option<string>): Element {
    Element(tag, attributes, text, [])
  }
}
