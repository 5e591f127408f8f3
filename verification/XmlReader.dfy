/**
 The reader as it runs: a position moves through one buffer, errors are left in a field. Each
 method agrees with its function on the remaining input.
 */
module XmlReader {
  import opened Wrappers
  import opened XmlText
  import opened XmlTree
  import XmlParser

  class XMLDocument {
    const buffer: string
    var errorID: XmlParser.Error

    constructor (input: string)
      ensures buffer == XmlParser.UpToNul(input) && NUL !in buffer && errorID == XmlParser.NO_ERROR
    {
      NoNulLeft(input);
      buffer := XmlParser.UpToNul(input);
      errorID := XmlParser.NO_ERROR;
    }

    /** The input from position `i` on. */
    ghost function From(i: nat): string
      requires i <= |buffer|
    {
      buffer[i..]
    }

    method SkipWhiteSpace(start: nat) returns (i: nat)
      requires start <= |buffer|
      ensures start <= i <= |buffer| && From(i) == XmlText.SkipWhiteSpace(From(start))
    {
      i := start;
      while i < |buffer| && IsWhiteSpace(buffer[i])
        invariant start <= i <= |buffer|
        invariant XmlText.SkipWhiteSpace(From(i)) == XmlText.SkipWhiteSpace(From(start))
      {
        assert From(i)[1..] == From(i + 1);
        i := i + 1;
      }
    }

    /** Position of the first end tag at or after `start`, if any. */
    method ParseText(start: nat, tag: string) returns (end: Option<nat>)
      requires start <= |buffer| && tag != []
      ensures end.Some? ==> start <= end.value && end.value + |tag| <= |buffer| && tag <= buffer[end.value..]
      ensures XmlParser.ParseText(From(start), tag)
           == match end case None => None case Some(e) => Some((buffer[start..e], From(e + |tag|)))
    {
      hide XmlParser.FindTag, XmlParser.ParseText;
      SplitOfSuffix(buffer, start, tag);
      var i := start;
      while i < |buffer|
        invariant start <= i <= |buffer|
        invariant XmlParser.FindTag(buffer, start, tag) == XmlParser.FindTag(buffer, i, tag)
      {
        TagAt(buffer, i, tag);
        if buffer[i] == tag[0] && tag <= buffer[i..] {
          return Some(i);
        }
        i := i + 1;
      }
      TagAt(buffer, i, tag);
      return None;
    }

    /** End of the longest name at `start`; `start` itself if none begins there. */
    method ParseName(start: nat) returns (i: nat)
      requires start <= |buffer|
      ensures start <= i <= |buffer|
      ensures XmlParser.ParseName(From(start)) == if i == start then None else Some((buffer[start..i], From(i)))
    {
      i := start;
      ghost var p := From(start);
      while i < |buffer| && (if i == start then IsNameStartChar(buffer[i]) else IsNameChar(buffer[i]))
        invariant start <= i <= |buffer|
        invariant i > start ==>
                  IsNameStartChar(p[0]) && 1 + XmlParser.NameTail(p[1..]) == i - start + XmlParser.NameTail(From(i))
      {
        assert i > start ==> From(i)[1..] == From(i + 1);
        assert i == start ==> p[1..] == From(i + 1);
        i := i + 1;
      }
      assert i > start ==> p[..i - start] == buffer[start..i] && p[i - start..] == From(i);
    }

    /** One `name = "value"`; None is the null pointer. */
    method ParseAttribute(start: nat) returns (r: Option<(Attr, nat)>)
      requires start <= |buffer|
      ensures r.Some? ==> start < r.value.1 <= |buffer|
      ensures XmlParser.ParseAttribute(From(start)) == match r case None => None case Some((a, i)) => Some((a, From(i)))
    {
      hide XmlParser.ParseName, XmlParser.ParseText, XmlText.SkipWhiteSpace;
      var p := ParseName(start);
      if p == start {
        return None;
      }
      var name := buffer[start..p];
      p := SkipWhiteSpace(p);
      if p == |buffer| || buffer[p] != '=' {
        return None;
      }
      assert From(p)[1..] == From(p + 1);
      p := SkipWhiteSpace(p + 1);
      if p == |buffer| || (buffer[p] != '"' && buffer[p] != '\'') {
        return None;
      }
      assert From(p)[1..] == From(p + 1);
      var end := ParseText(p + 1, [buffer[p]]);
      match end {
        case None => return None;
        case Some(e) => return Some((Attr(name, buffer[p + 1..e]), e + 1));
      }
    }

    /** All attributes up to the end of the tag; None is the null pointer, with the error set. */
    method ParseAttributes(start: nat) returns (attrs: seq<Attr>, sealed: bool, end: Option<nat>)
      requires start <= |buffer|
      modifies this
      ensures end.Some? ==> start < end.value <= |buffer| && errorID == old(errorID)
                            && XmlParser.ParseAttributes(From(start), [])
                               == XmlParser.Attributes(attrs, sealed, From(end.value))
      ensures end.None? ==> XmlParser.ParseAttributes(From(start), []) == XmlParser.BadAttributes(errorID)
    {
      hide XmlParser.ParseAttribute, XmlText.SkipWhiteSpace;
      attrs, sealed := [], false;
      var p := start;
      while true
        invariant start <= p <= |buffer| && errorID == old(errorID)
        invariant XmlParser.ParseAttributes(From(p), attrs) == XmlParser.ParseAttributes(From(start), [])
        decreases |buffer| - p
      {
        ghost var before := p;
        p := SkipWhiteSpace(p);
        if p == |buffer| {
          errorID := XmlParser.PARSING_ELEMENT;
          return attrs, sealed, None;
        }
        if IsNameStartChar(buffer[p]) {
          var attr := ParseAttribute(p);
          if attr.None? || XmlParser.NamesAttr(attrs, attr.value.0.name) {
            errorID := XmlParser.PARSING_ATTRIBUTE;
            return attrs, sealed, None;
          }
          attrs := attrs + [attr.value.0];
          p := attr.value.1;
        } else if "/>" <= buffer[p..] {
          assert From(p)[2..] == From(p + 2);
          return attrs, true, Some(p + 2);
        } else if buffer[p] == '>' {
          assert From(p)[1..] == From(p + 1);
          return attrs, false, Some(p + 1);
        } else {
          errorID := XmlParser.PARSING_ELEMENT;
          return attrs, sealed, None;
        }
      }
    }

    /** The kind of the next node and the position after its header. */
    method Identify(start: nat) returns (r: Option<(XmlParser.Kind, nat)>)
      requires start <= |buffer|
      ensures r.Some? ==> start <= r.value.1 <= |buffer|
      ensures XmlParser.Identify(From(start)) == match r case None => None case Some((k, i)) => Some((k, From(i)))
    {
      hide XmlText.SkipWhiteSpace;
      var p := SkipWhiteSpace(start);
      assert forall k :: p + k <= |buffer| ==> k >= 0 ==> From(p)[k..] == From(p + k);
      if p == |buffer| {
        return None;
      } else if "<?" <= buffer[p..] {
        return Some((XmlParser.DeclarationKind, p + 2));
      } else if "<!--" <= buffer[p..] {
        return Some((XmlParser.CommentKind, p + 4));
      } else if "<![CDATA[" <= buffer[p..] {
        return Some((XmlParser.CDataKind, p + 9));
      } else if "<!" <= buffer[p..] {
        return Some((XmlParser.UnknownKind, p + 2));
      } else if "<" <= buffer[p..] {
        return Some((XmlParser.ElementKind, p + 1));
      } else {
        return Some((XmlParser.TextKind, start));
      }
    }

    /** Reads up to the end tag and makes a leaf; a missing end tag is the given error. */
    method ParseLeaf(kind: XmlParser.Kind, start: nat) returns (node: Node, end: Option<nat>)
      requires start <= |buffer| && errorID == XmlParser.NO_ERROR && kind != XmlParser.ElementKind
      requires kind == XmlParser.TextKind ==> start < |buffer| && buffer[start] != '<'
      modifies this
      ensures end.Some? ==> start <= end.value <= |buffer| && errorID == XmlParser.NO_ERROR
                            && XmlParser.ParseNode(kind, From(start))
                               == XmlParser.Parsed(node, XmlParser.CLOSED, None, From(end.value))
      ensures end.None? ==> XmlParser.ParseNode(kind, From(start)) == XmlParser.Null(errorID)
    {
      hide XmlParser.ParseText;
      var tag := match kind
        case CDataKind => "]]>"
        case CommentKind => "-->"
        case DeclarationKind => "?>"
        case UnknownKind => ">"
        case _ => "<";
      var e := ParseText(start, tag);
      if e.None? {
        errorID := match kind
          case CDataKind => XmlParser.PARSING_CDATA
          case CommentKind => XmlParser.PARSING_COMMENT
          case DeclarationKind => XmlParser.PARSING_DECLARATION
          case UnknownKind => XmlParser.PARSING_UNKNOWN
          case _ => XmlParser.PARSING_TEXT;
        return Text([], false), None;
      }
      var value := buffer[start..e.value];
      var next := e.value + |tag|;
      if kind == XmlParser.TextKind {
        node := Text(value, false);
        if next == |buffer| {
          return node, None;
        }
        assert buffer[next - 1] == buffer[e.value..][0] == tag[0];
        BackUp(buffer, next);
        return node, Some(next - 1);
      }
      node := if kind == XmlParser.CDataKind then Text(value, true)
              else if kind == XmlParser.CommentKind then Comment(value)
              else if kind == XmlParser.DeclarationKind then Declaration(value)
              else Unknown(value);
      return node, Some(next);
    }

    /** An element from after its `<`, with its children and the end tag that closed it. */
    method ParseElement(start: nat)
      returns (node: Node, closing: XmlParser.Closing, endTag: Option<string>, end: Option<nat>)
      requires start <= |buffer| && errorID == XmlParser.NO_ERROR
      modifies this
      ensures end.Some? ==> start <= end.value <= |buffer| && errorID == XmlParser.NO_ERROR
                            && XmlParser.ParseElement(From(start))
                               == XmlParser.Parsed(node, closing, endTag, From(end.value))
      ensures end.None? ==> XmlParser.ParseElement(From(start)) == XmlParser.Null(errorID)
      decreases |buffer| - start, 0
    {
      hide XmlParser.ParseName, XmlParser.ParseAttributes, XmlParser.ParseChildren, XmlText.SkipWhiteSpace;
      node, closing, endTag, end := Text([], false), XmlParser.OPEN, None, None;
      var p := SkipWhiteSpace(start);
      var isEnd := p < |buffer| && buffer[p] == '/';
      if isEnd {
        assert From(p)[1..] == From(p + 1);
        p := p + 1;
      }
      var afterName := ParseName(p);
      if afterName == p {
        return;
      }
      var name := buffer[p..afterName];
      var attrs, sealed, rest := ParseAttributes(afterName);
      if rest.None? {
        return;
      }
      closing := if sealed then XmlParser.CLOSED else if isEnd then XmlParser.CLOSING else XmlParser.OPEN;
      if rest.value == |buffer| || closing != XmlParser.OPEN {
        return Element(name, attrs, []), closing, None, rest;
      }
      var children;
      children, endTag, end := ParseChildren(rest.value);
      node := Element(name, attrs, children);
    }

    /**
     Nodes up to an end tag, which is handed to the parent; or up to a null pointer, at the end of input or on an
     error.
     */
    method ParseChildren(start: nat) returns (nodes: seq<Node>, parentEnd: Option<string>, end: Option<nat>)
      requires start <= |buffer| && errorID == XmlParser.NO_ERROR
      modifies this
      ensures nodes == XmlParser.ParseChildren(From(start)).nodes
      ensures end.Some? ==> start <= end.value <= |buffer| && errorID == XmlParser.NO_ERROR && parentEnd.Some?
                            && XmlParser.ParseChildren(From(start)).end
                               == XmlParser.Closed(parentEnd.value, From(end.value))
      ensures end.None? ==>
                XmlParser.ParseChildren(From(start)).end
                == if errorID == XmlParser.NO_ERROR then XmlParser.Exhausted else XmlParser.Failed(errorID)
      decreases |buffer| - start, 2
    {
      hide XmlParser.Identify, XmlParser.ParseNode, XmlParser.ParseChildren, XmlParser.ParseElement;
      nodes, parentEnd, end := [], None, None;
      var p := start;
      NothingBefore(XmlParser.ParseChildren(From(start)));
      while p < |buffer|
        invariant start <= p <= |buffer| && errorID == XmlParser.NO_ERROR
        invariant XmlParser.ParseChildren(From(start)) == After(nodes, XmlParser.ParseChildren(From(p)))
        decreases |buffer| - p
      {
        ChildrenUnfold(From(p));
        var header := Identify(p);
        if header.None? {
          NothingAfter(nodes);
          return;
        }
        var (kind, body) := header.value;
        HeaderConsumes(From(p), kind, From(body));
        var node, closing, endTag, rest;
        if kind == XmlParser.ElementKind {
          ElementIsNode(From(body));
          node, closing, endTag, rest := ParseElement(body);
        } else {
          closing, endTag := XmlParser.CLOSED, None;
          node, rest := ParseLeaf(kind, body);
        }
        if rest.None? {
          NothingAfter(nodes);
          if errorID == XmlParser.NO_ERROR {
            errorID := XmlParser.PARSING;
          }
          return;
        }
        if closing == XmlParser.CLOSING {
          NothingAfter(nodes);
          return nodes, Some(node.name), rest;
        }
        if node.Element? && closing == XmlParser.OPEN && endTag != Some(node.name) {
          NothingAfter(nodes);
          errorID := XmlParser.MISMATCHED_ELEMENT;
          return;
        }
        OneMoreAfter(nodes, node, XmlParser.ParseChildren(From(rest.value)));
        nodes := nodes + [node];
        p := rest.value;
      }
      ChildrenUnfold(From(p));
      NothingAfter(nodes);
    }

    /** Reads the whole document; an end tag outside all elements ends it silently. */
    method Parse() returns (nodes: seq<Node>, bom: bool)
      requires errorID == XmlParser.NO_ERROR && NUL !in buffer
      modifies this
      ensures XmlParser.ParseDocument(buffer) == XmlParser.Document(nodes, errorID, bom)
    {
      XmlParser.UpToNulWhole(buffer);
      assert From(0) == buffer;
      if |buffer| == 0 {
        errorID := XmlParser.EMPTY_DOCUMENT;
        return [], false;
      }
      var p := SkipWhiteSpace(0);
      bom := XmlParser.BOM <= buffer[p..];
      if bom {
        assert From(p)[3..] == From(p + 3);
        p := p + 3;
      }
      if p == |buffer| {
        errorID := XmlParser.EMPTY_DOCUMENT;
        return [], bom;
      }
      var parentEnd, end;
      nodes, parentEnd, end := ParseChildren(p);
    }
  }

  /** One turn of the loop over children. */
  function Unfolded(p: string): XmlParser.Children {
    match XmlParser.Identify(p)
    case None => XmlParser.Children([], XmlParser.Exhausted)
    case Some((kind, start)) =>
      match XmlParser.ParseNode(kind, start)
      case Null(error) =>
        XmlParser.Children([], XmlParser.Failed(if error == XmlParser.NO_ERROR then XmlParser.PARSING else error))
      case Parsed(node, closing, endTag, rest) =>
        if closing == XmlParser.CLOSING then XmlParser.Children([], XmlParser.Closed(node.name, rest))
        else if node.Element? && closing == XmlParser.OPEN && endTag != Some(node.name) then
          XmlParser.Children([], XmlParser.Failed(XmlParser.MISMATCHED_ELEMENT))
        else After([node], XmlParser.ParseChildren(rest))
  }

  lemma ChildrenUnfold(p: string)
    ensures p == [] ==> XmlParser.ParseChildren(p) == XmlParser.Children([], XmlParser.Exhausted)
    ensures p != [] ==> XmlParser.ParseChildren(p) == Unfolded(p)
  {
    hide XmlParser.Identify, XmlParser.ParseNode;
  }

  lemma HeaderConsumes(p: string, kind: XmlParser.Kind, body: string)
    requires XmlParser.Identify(p) == Some((kind, body))
    ensures |body| <= |p| && (kind != XmlParser.TextKind ==> |body| < |p|)
    ensures kind == XmlParser.TextKind ==> body == p && p != [] && p[0] != '<'
  {
    hide XmlParser.Identify;
  }

  lemma ElementIsNode(p: string)
    ensures XmlParser.ParseNode(XmlParser.ElementKind, p) == XmlParser.ParseElement(p)
  {
    hide XmlParser.ParseElement;
  }

  lemma NothingBefore(r: XmlParser.Children)
    ensures After([], r) == r
  {
    assert [] + r.nodes == r.nodes;
  }

  lemma {:induction false} NoNulLeft(s: string)
    ensures NUL !in XmlParser.UpToNul(s)
  {
    if s != [] {
      NoNulLeft(s[1..]);
    }
  }

  /** Children preceded by nodes already read. */
  function After(nodes: seq<Node>, more: XmlParser.Children): XmlParser.Children {
    XmlParser.Children(nodes + more.nodes, more.end)
  }

  lemma OneMoreAfter(nodes: seq<Node>, n: Node, more: XmlParser.Children)
    ensures After(nodes, After([n], more)) == After(nodes + [n], more)
  {
    assert nodes + ([n] + more.nodes) == nodes + [n] + more.nodes;
  }

  lemma NothingAfter(nodes: seq<Node>)
    ensures nodes + [] == nodes
  {
  }

  lemma BackUp(buffer: string, i: nat)
    requires 0 < i <= |buffer| && buffer[i - 1] == '<'
    ensures "<" + buffer[i..] == buffer[i - 1..]
  {
  }

  function Shift(start: nat, r: Option<nat>): Option<nat> {
    match r
    case None => None
    case Some(e) => Some(start + e)
  }

  /** Searching a suffix is searching the whole from there. */
  lemma {:induction false} TagShift(buffer: string, start: nat, i: nat, tag: string)
    requires tag != [] && start + i <= |buffer|
    ensures XmlParser.FindTag(buffer, start + i, tag) == Shift(start, XmlParser.FindTag(buffer[start..], i, tag))
    decreases |buffer| - start - i
  {
    assert buffer[start..][i..] == buffer[start + i..];
    if !(tag <= buffer[start + i..]) && start + i < |buffer| {
      TagShift(buffer, start, i + 1, tag);
    }
  }

  lemma SplitOfSuffix(buffer: string, start: nat, tag: string)
    requires tag != [] && start <= |buffer|
    ensures XmlParser.ParseText(buffer[start..], tag)
         == match XmlParser.FindTag(buffer, start, tag)
            case None => None
            case Some(e) => Some((buffer[start..e], buffer[e + |tag|..]))
  {
    hide XmlParser.FindTag;
    TagShift(buffer, start, 0, tag);
    var r := XmlParser.FindTag(buffer[start..], 0, tag);
    if r.Some? {
      assert buffer[start..][..r.value] == buffer[start..start + r.value];
      assert buffer[start..][r.value + |tag|..] == buffer[start + r.value + |tag|..];
    }
  }

  lemma TagAt(buffer: string, i: nat, tag: string)
    requires tag != [] && i <= |buffer|
    ensures XmlParser.FindTag(buffer, i, tag)
         == if tag <= buffer[i..] then Some(i)
            else if i == |buffer| then None else XmlParser.FindTag(buffer, i + 1, tag)
    ensures tag <= buffer[i..] ==> i + |tag| <= |buffer| && buffer[i] == tag[0]
  {
    assert tag <= buffer[i..] ==> buffer[i..][0] == tag[0];
  }
}
