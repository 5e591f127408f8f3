/**
 The recursive-descent reader as functions on the remaining input; the empty string is the
 terminating NUL. Values stay unprocessed until `Resolve` reads them.
 */
module XmlParser {
  import opened Wrappers
  import opened XmlText
  import opened XmlTree

  datatype Error =
    | NO_ERROR | EMPTY_DOCUMENT | PARSING | MISMATCHED_ELEMENT
    | PARSING_ELEMENT | PARSING_ATTRIBUTE | PARSING_TEXT | PARSING_CDATA
    | PARSING_COMMENT | PARSING_DECLARATION | PARSING_UNKNOWN

  datatype Kind = DeclarationKind | CommentKind | CDataKind | UnknownKind | ElementKind | TextKind

  /** An element's tag is open, sealed with `/>`, or an end tag. */
  datatype Closing = OPEN | CLOSED | CLOSING

  /** Position of the first `tag` at or after `i`. */
  function FindTag(p: string, i: nat, tag: string): (r: Option<nat>)
    requires i <= |p| && tag != []
    ensures r.Some? ==> i <= r.value && r.value + |tag| <= |p| && tag <= p[r.value..]
    decreases |p| - i
  {
    if tag <= p[i..] then Some(i) else if i == |p| then None else FindTag(p, i + 1, tag)
  }

  /** Splits the input at the first occurrence of `tag`. */
  function ParseText(p: string, tag: string): (r: Option<(string, string)>)
    requires tag != []
    ensures r.Some? ==> |p| == |r.value.0| + |tag| + |r.value.1|
    ensures r.Some? && r.value.0 == [] ==> tag <= p
  {
    match FindTag(p, 0, tag)
    case None => None
    case Some(end) => Some((p[..end], p[end + |tag|..]))
  }

  function NameTail(p: string): (n: nat)
    ensures n <= |p|
  {
    if p != [] && IsNameChar(p[0]) then 1 + NameTail(p[1..]) else 0
  }

  function ParseName(p: string): (r: Option<(string, string)>)
    ensures r.Some? ==> p == r.value.0 + r.value.1 && r.value.0 != []
  {
    if p == [] || !IsNameStartChar(p[0]) then None
    else var n := 1 + NameTail(p[1..]); Some((p[..n], p[n..]))
  }

  function ParseAttribute(p: string): (r: Option<(Attr, string)>)
    ensures r.Some? ==> |r.value.1| < |p|
  {
    match ParseName(p)
    case None => None
    case Some((name, afterName)) =>
      var q := SkipWhiteSpace(afterName);
      if q == [] || q[0] != '=' then None
      else
        var v := SkipWhiteSpace(q[1..]);
        if v == [] || (v[0] != '"' && v[0] != '\'') then None
        else
          match ParseText(v[1..], [v[0]])
          case None => None
          case Some((value, rest)) => Some((Attr(name, value), rest))
  }

  datatype Attributes = Attributes(attrs: seq<Attr>, sealed: bool, rest: string) | BadAttributes(error: Error)

  predicate NamesAttr(attrs: seq<Attr>, name: string) {
    exists i :: 0 <= i < |attrs| && attrs[i].name == name
  }

  function ParseAttributes(p: string, seen: seq<Attr>): (r: Attributes)
    ensures r.Attributes? ==> |r.rest| < |p|
    decreases |p|
  {
    var q := SkipWhiteSpace(p);
    if q == [] then BadAttributes(PARSING_ELEMENT)
    else if IsNameStartChar(q[0]) then
      match ParseAttribute(q)
      case None => BadAttributes(PARSING_ATTRIBUTE)
      case Some((attr, rest)) =>
        if NamesAttr(seen, attr.name) then BadAttributes(PARSING_ATTRIBUTE)
        else ParseAttributes(rest, seen + [attr])
    else if "/>" <= q then Attributes(seen, true, q[2..])
    else if q[0] == '>' then Attributes(seen, false, q[1..])
    else BadAttributes(PARSING_ELEMENT)
  }

  /** What kind of node comes next, and the input after its header; a text keeps its leading white space. */
  function Identify(p: string): (r: Option<(Kind, string)>)
    ensures r.Some? ==> |r.value.1| <= |p|
    ensures r.Some? && r.value.0 != TextKind ==> |r.value.1| < |p|
    ensures r.Some? && r.value.0 == TextKind ==> r.value.1 == p && p != [] && p[0] != '<'
  {
    var q := SkipWhiteSpace(p);
    if q == [] then None
    else if "<?" <= q then Some((DeclarationKind, q[2..]))
    else if "<!--" <= q then Some((CommentKind, q[4..]))
    else if "<![CDATA[" <= q then Some((CDataKind, q[9..]))
    else if "<!" <= q then Some((UnknownKind, q[2..]))
    else if "<" <= q then Some((ElementKind, q[1..]))
    else Some((TextKind, p))
  }

  /** A node read, with the end tag that closed it; or a null pointer, with the error already set if any. */
  datatype Parsed = Parsed(node: Node, closing: Closing, endTag: Option<string>, rest: string) | Null(error: Error)

  /** Why reading children stopped. */
  datatype End = Closed(name: string, rest: string) | Exhausted | Failed(error: Error)

  datatype Children = Children(nodes: seq<Node>, end: End)

  function ParseNode(kind: Kind, p: string): (r: Parsed)
    requires kind == TextKind ==> p != [] && p[0] != '<'
    ensures r.Parsed? ==> |r.rest| <= |p|
    ensures r.Parsed? && kind == TextKind ==> |r.rest| < |p|
    ensures r.Parsed? && r.endTag.Some? ==> r.closing == OPEN
    ensures r.Parsed? && r.closing == CLOSING ==> r.node.Element?
    decreases |p|, 1
  {
    match kind
    case ElementKind => ParseElement(p)
    case TextKind =>
      (match ParseText(p, "<")
       case None => Null(PARSING_TEXT)
       case Some((value, rest)) =>
         if rest == [] then Null(NO_ERROR) else Parsed(Text(value, false), CLOSED, None, "<" + rest))
    case CDataKind =>
      (match ParseText(p, "]]>")
       case None => Null(PARSING_CDATA)
       case Some((value, rest)) => Parsed(Text(value, true), CLOSED, None, rest))
    case CommentKind =>
      (match ParseText(p, "-->")
       case None => Null(PARSING_COMMENT)
       case Some((value, rest)) => Parsed(Comment(value), CLOSED, None, rest))
    case DeclarationKind =>
      (match ParseText(p, "?>")
       case None => Null(PARSING_DECLARATION)
       case Some((value, rest)) => Parsed(Declaration(value), CLOSED, None, rest))
    case UnknownKind =>
      (match ParseText(p, ">")
       case None => Null(PARSING_UNKNOWN)
       case Some((value, rest)) => Parsed(Unknown(value), CLOSED, None, rest))
  }

  function ParseElement(p: string): (r: Parsed)
    ensures r.Parsed? ==> |r.rest| <= |p| && r.node.Element?
    ensures r.Parsed? && r.endTag.Some? ==> r.closing == OPEN
    decreases |p|, 0
  {
    var q := SkipWhiteSpace(p);
    var isEnd := q != [] && q[0] == '/';
    match ParseName(if isEnd then q[1..] else q)
    case None => Null(NO_ERROR)
    case Some((name, afterName)) =>
      match ParseAttributes(afterName, [])
      case BadAttributes(error) => Null(error)
      case Attributes(attrs, sealed, rest) =>
        var closing := if sealed then CLOSED else if isEnd then CLOSING else OPEN;
        if rest == [] || closing != OPEN then Parsed(Element(name, attrs, []), closing, None, rest)
        else
          var children := ParseChildren(rest);
          match children.end
          case Closed(endName, after) => Parsed(Element(name, attrs, children.nodes), OPEN, Some(endName), after)
          case Exhausted => Null(NO_ERROR)
          case Failed(error) => Null(error)
  }

  /** Reads nodes up to an end tag, the end of the input, or an error. */
  function ParseChildren(p: string): (r: Children)
    ensures r.end.Closed? ==> |r.end.rest| <= |p|
    ensures r.end.Failed? ==> r.end.error != NO_ERROR
    decreases |p|, 2
  {
    if p == [] then Children([], Exhausted)
    else
      match Identify(p)
      case None => Children([], Exhausted)
      case Some((kind, start)) =>
        match ParseNode(kind, start)
        case Null(error) => Children([], Failed(if error == NO_ERROR then PARSING else error))
        case Parsed(node, closing, endTag, rest) =>
          if closing == CLOSING then Children([], Closed(node.name, rest))
          else if node.Element? && closing == OPEN && endTag != Some(node.name) then
            Children([], Failed(MISMATCHED_ELEMENT))
          else
            var more := ParseChildren(rest);
            Children([node] + more.nodes, more.end)
  }

  datatype Document = Document(nodes: seq<Node>, error: Error, bom: bool)

  /** A C string ends at its first NUL. */
  function UpToNul(s: string): string {
    if s == [] || s[0] == NUL then [] else [s[0]] + UpToNul(s[1..])
  }

  lemma {:induction false} UpToNulWhole(s: string)
    requires NUL !in s
    ensures UpToNul(s) == s
  {
    if s != [] {
      UpToNulWhole(s[1..]);
    }
  }

  const BOM := [0xEF as char, 0xBB as char, 0xBF as char]

  /** An end tag outside all elements silently ends the document. */
  function ParseDocument(input: string): Document {
    var s := UpToNul(input);
    if s == [] then Document([], EMPTY_DOCUMENT, false)
    else
      var p := SkipWhiteSpace(s);
      var bom := BOM <= p;
      var start := if bom then p[3..] else p;
      if start == [] then Document([], EMPTY_DOCUMENT, bom)
      else
        var children := ParseChildren(start);
        Document(children.nodes, if children.end.Failed? then children.end.error else NO_ERROR, bom)
  }

  // ---------------------------------------------------------------- reading values

  function ResolveAttrs(attrs: seq<Attr>): Option<seq<Attr>> {
    if attrs == [] then Some([])
    else
      match (Scan(attrs[0].value, 0, [], true, true), ResolveAttrs(attrs[1..]))
      case (Some(value), Some(rest)) => Some([Attr(attrs[0].name, value)] + rest)
      case _ => None
  }

  /** The tree as its accessors show it; None where reading a value would follow a null pointer. */
  function Resolve(n: Node): Option<Node>
    decreases n, 0
  {
    match n
    case Element(name, attrs, children) =>
      (match (ResolveAttrs(attrs), ResolveAll(children))
       case (Some(a), Some(c)) => Some(Element(name, a, c))
       case _ => None)
    case Text(value, cdata) =>
      (match Scan(value, 0, [], !cdata, true)
       case Some(v) => Some(Text(v, cdata))
       case None => None)
    case Comment(value) =>
      (match Scan(value, 0, [], false, true)
       case Some(v) => Some(Comment(v))
       case None => None)
    case Declaration(value) =>
      (match Scan(value, 0, [], false, true)
       case Some(v) => Some(Declaration(v))
       case None => None)
    case Unknown(value) =>
      (match Scan(value, 0, [], false, true)
       case Some(v) => Some(Unknown(v))
       case None => None)
  }

  function ResolveAll(ns: seq<Node>): Option<seq<Node>>
    decreases ns, 1
  {
    if ns == [] then Some([])
    else
      match (Resolve(ns[0]), ResolveAll(ns[1..]))
      case (Some(n), Some(rest)) => Some([n] + rest)
      case _ => None
  }
}
