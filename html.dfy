/**
  The HTML void elements: elements that have a start tag and no end tag. The
  list is the one of the WHATWG HTML standard (section 13.1.2, "Elements"),
  plus `param` from the W3C HTML5 list (section 8.1.2). `TagBuilder` and
  `ElementConverter` each carry a copy of it.
 */
module Html {
  import opened Text

  const VoidElements: seq<String> :=
    ["area", "base", "br", "col", "embed", "hr", "img", "input", "link", "meta",
     "param", "source", "track", "wbr"]

  predicate IsVoid(tag: String)
  {
    tag in VoidElements
  }

  /** `<name attributes>` */
  function OpenTag(name: String, attributes: String): String
  {
    "<" + name + attributes + ">"
  }

  /** `name="v1 v2 …"`: an attribute whose value is the space-joined list. */
  function Attribute(name: String, values: seq<String>): String
  {
    name + "=\"" + Join(values, " ") + "\""
  }

  /** `</name>` */
  function CloseTag(name: String): String
  {
    "</" + name + ">"
  }
}
