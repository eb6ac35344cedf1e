/**
 * The already-parsed description document: an ordered tree of elements with
 * attributes, plus the text and comment nodes the tool walks past.
 */
module XmlTree {
  import opened Wrappers

  datatype Node =
    | Element(name: string, attributes: map<string, string>, children: seq<Node>)
    | Text(content: string)
    | Comment(content: string)

  /** The tool's test `eType == CXT_Element && strcmp(pszValue, name) == 0`. */
  predicate IsElement(n: Node, name: string)
  {
    n.Element? && n.name == name
  }

  function Children(n: Node): seq<Node>
  {
    if n.Element? then n.children else []
  }

  /** The value of attribute `key`, if the node carries it. */
  function Attr(n: Node, key: string): Option<string>
  {
    if n.Element? && key in n.attributes then Some(n.attributes[key]) else None
  }

  /** `CPLGetXMLValue(n, key, default)` for an attribute. */
  function AttrOr(n: Node, key: string, default: string): string
  {
    match Attr(n, key)
    case Some(v) => v
    case None => default
  }

  /** `CPLGetXMLValue(n, nullptr, default)`: the element's text when its content is a single text node. */
  function TextOr(n: Node, default: string): string
  {
    if n.Element? && |n.children| == 1 && n.children[0].Text? then n.children[0].content else default
  }
}
