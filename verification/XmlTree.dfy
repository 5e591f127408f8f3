/**
 The document tree and its plain rendering: the text a writer is expected to produce for it in compact form.
 */
module XmlTree {
  import opened XmlText

  datatype Attr = Attr(name: string, value: string)

  datatype Node =
    | Element(name: string, attrs: seq<Attr>, children: seq<Node>)
    | Text(value: string, cdata: bool)
    | Comment(value: string)
    | Declaration(value: string)
    | Unknown(value: string)

  predicate HasText(ns: seq<Node>) {
    exists i :: 0 <= i < |ns| && ns[i].Text?
  }

  function Spaces(n: nat): string {
    if n == 0 then [] else "    " + Spaces(n - 1)
  }

  function RenderAttrs(attrs: seq<Attr>): string {
    if attrs == [] then []
    else " " + attrs[0].name + "=\"" + Escape(attrs[0].value, false) + "\"" + RenderAttrs(attrs[1..])
  }

  function Render(n: Node): string
    decreases n, 0
  {
    match n
    case Element(name, attrs, children) =>
      "<" + name + RenderAttrs(attrs) + if children == [] then "/>" else ">" + RenderAll(children) + "</" + name + ">"
    case Text(value, cdata) => if cdata then "<![CDATA[" + value + "]]>" else Escape(value, true)
    case Comment(value) => "<!--" + value + "-->"
    case Declaration(value) => "<?" + value + "?>"
    case Unknown(value) => "<!" + value + ">"
  }

  function RenderAll(ns: seq<Node>): string
    decreases ns, 1
  {
    if ns == [] then [] else Render(ns[0]) + RenderAll(ns[1..])
  }
}
