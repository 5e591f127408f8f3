/**
 Reading a rendered tree gives the tree back.
 */
module XmlRoundTrip {
  import opened Wrappers
  import opened XmlText
  import opened XmlTree
  import opened XmlParser

  // ---------------------------------------------------------------- normalised trees

  predicate ValidName(s: string) {
    s != [] && IsNameStartChar(s[0]) && forall i :: 0 <= i < |s| ==> IsNameChar(s[i])
  }

  predicate Contains(v: string, tag: string) {
    exists i :: 0 <= i <= |v| && tag <= v[i..]
  }

  predicate Blank(s: string) {
    forall i :: 0 <= i < |s| ==> IsWhiteSpace(s[i])
  }

  predicate PlainText(n: Node) {
    n.Text? && !n.cdata
  }

  predicate NormalAttrs(attrs: seq<Attr>) {
    && (forall i :: 0 <= i < |attrs| ==> ValidName(attrs[i].name) && Plain(attrs[i].value))
    && (forall i, j :: 0 <= i < j < |attrs| ==> attrs[i].name != attrs[j].name)
  }

  /**
   Trees a reader can tell apart: valid names, distinct attributes, no blank or adjacent texts, no premature end tags.
   */
  predicate Normal(n: Node)
    decreases n, 0
  {
    match n
    case Element(name, attrs, children) => ValidName(name) && NormalAttrs(attrs) && NormalAll(children)
    case Text(value, cdata) => Plain(value) && if cdata then !Contains(value, "]]>") else !Blank(value)
    case Comment(value) => Plain(value) && !Contains(value, "-->")
    case Declaration(value) => Plain(value) && !Contains(value, "?>")
    case Unknown(value) => Plain(value) && !Contains(value, ">") && !("--" <= value) && !("[CDATA[" <= value)
  }

  predicate NormalAll(ns: seq<Node>)
    decreases ns, 1
  {
    ns == [] || (Normal(ns[0]) && NormalAll(ns[1..]) && !(|ns| > 1 && PlainText(ns[0]) && PlainText(ns[1])))
  }

  /** The tree as the reader stores it, values still escaped. */
  function Raw(n: Node): Node
    decreases n, 0
  {
    match n
    case Element(name, attrs, children) => Element(name, RawAttrs(attrs), RawAll(children))
    case Text(value, cdata) => if cdata then n else Text(Escape(value, true), false)
    case _ => n
  }

  function RawAll(ns: seq<Node>): seq<Node>
    decreases ns, 1
  {
    if ns == [] then [] else [Raw(ns[0])] + RawAll(ns[1..])
  }

  function RawAttrs(attrs: seq<Attr>): (r: seq<Attr>)
    ensures |r| == |attrs| && forall i :: 0 <= i < |r| ==> r[i] == Attr(attrs[i].name, Escape(attrs[i].value, false))
  {
    if attrs == [] then [] else [Attr(attrs[0].name, Escape(attrs[0].value, false))] + RawAttrs(attrs[1..])
  }

  // ---------------------------------------------------------------- scanning

  lemma {:induction false} BlankSkipped(blank: string, q: string)
    requires Blank(blank)
    requires q == [] || !IsWhiteSpace(q[0])
    ensures SkipWhiteSpace(blank + q) == q
  {
    if blank == [] {
      assert blank + q == q;
    } else {
      assert (blank + q)[1..] == blank[1..] + q;
      BlankSkipped(blank[1..], q);
    }
  }

  lemma SpacesBlank(n: nat)
    ensures Blank(Spaces(n))
  {
  }

  /** The first occurrence of `tag` in `v + tag` is the one at its end. */
  ghost predicate FirstAtEnd(v: string, tag: string) {
    forall i :: 0 <= i < |v| ==> !(tag <= (v + tag)[i..])
  }

  lemma {:induction false} TagFound(v: string, tag: string, rest: string, i: nat)
    requires tag != [] && FirstAtEnd(v, tag) && i <= |v|
    ensures FindTag(v + tag + rest, i, tag) == Some(|v|)
    decreases |v| - i
  {
    var p := v + tag + rest;
    if i == |v| {
      assert p[i..] == tag + rest;
    } else {
      assert p[i..][..|tag|] == (v + tag)[i..][..|tag|];
      TagFound(v, tag, rest, i + 1);
    }
  }

  lemma ParseTextFinds(v: string, tag: string, rest: string)
    requires tag != [] && FirstAtEnd(v, tag)
    ensures ParseText(v + tag + rest, tag) == Some((v, rest))
  {
    TagFound(v, tag, rest, 0);
    assert (v + tag + rest)[..|v|] == v && (v + tag + rest)[|v| + |tag|..] == rest;
  }

  /** A tag whose last character occurs nowhere else in it cannot begin inside `v` and end outside. */
  lemma NoOverlap(v: string, tag: string)
    requires tag != [] && !Contains(v, tag)
    requires forall i :: 0 <= i < |tag| - 1 ==> tag[i] != tag[|tag| - 1]
    ensures FirstAtEnd(v, tag)
  {
    var last := |tag| - 1;
    forall i | 0 <= i < |v| ensures !(tag <= (v + tag)[i..]) {
      var s := (v + tag)[i..];
      if i + last < |v| {
        assert s[..|tag|] == v[i..][..|tag|];
      } else {
        assert s[last] == tag[i + last - |v|];
      }
    }
  }

  lemma SingleCharFirst(v: string, c: char)
    requires c !in v
    ensures FirstAtEnd(v, [c])
  {
    forall i | 0 <= i < |v| ensures (v + [c])[i..][0] == v[i] != c {
      assert v[i] in v;
    }
  }

  lemma EscapedLacks(d: char, restricted: bool, c: char)
    requires c == '<' || c == '>' || ((c == '"' || c == '\'') && !restricted)
    ensures c !in Escaped(d, restricted)
  {
  }

  /** An escaped text holds no angle bracket, and an escaped attribute value no quote of either kind. */
  lemma {:induction false} EscapeLacks(s: string, restricted: bool, c: char)
    requires c == '<' || c == '>' || ((c == '"' || c == '\'') && !restricted)
    ensures c !in Escape(s, restricted)
  {
    hide Escaped;
    if s != [] {
      EscapedLacks(s[0], restricted, c);
      EscapeLacks(s[1..], restricted, c);
    }
  }

  /** Nothing else is escaped. */
  lemma {:induction false} EscapeSpares(s: string, restricted: bool)
    requires '&' !in s && '<' !in s && '>' !in s && (restricted || ('"' !in s && '\'' !in s))
    ensures Escape(s, restricted) == s
  {
    if s != [] {
      assert s[0] in s && Escaped(s[0], restricted) == [s[0]];
      EscapeSpares(s[1..], restricted);
    }
  }

  lemma {:induction false} NameTailStops(name: string, rest: string)
    requires forall i :: 0 <= i < |name| ==> IsNameChar(name[i])
    requires rest == [] || !IsNameChar(rest[0])
    ensures NameTail(name + rest) == |name|
  {
    if name == [] {
      assert name + rest == rest;
    } else {
      assert (name + rest)[1..] == name[1..] + rest;
      NameTailStops(name[1..], rest);
    }
  }

  lemma ParseNameFinds(name: string, rest: string)
    requires ValidName(name)
    requires rest == [] || !IsNameChar(rest[0])
    ensures ParseName(name + rest) == Some((name, rest))
  {
    assert (name + rest)[1..] == name[1..] + rest;
    NameTailStops(name[1..], rest);
    assert (name + rest)[..|name|] == name && (name + rest)[|name|..] == rest;
  }

  // ---------------------------------------------------------------- attributes

  function RenderAttr(a: Attr): string {
    a.name + "=\"" + Escape(a.value, false) + "\""
  }

  function RawAttr(a: Attr): Attr {
    Attr(a.name, Escape(a.value, false))
  }

  lemma QuotedValueFound(value: string, rest: string)
    requires '"' !in value
    ensures ParseText(value + "\"" + rest, "\"") == Some((value, rest))
  {
    SingleCharFirst(value, '"');
    ParseTextFinds(value, "\"", rest);
  }

  lemma AttrText(name: string, value: string, rest: string)
    ensures name + "=\"" + value + "\"" + rest == name + ("=" + ("\"" + value + "\"" + rest))
  {
  }

  lemma ParseAttributeFinds(a: Attr, rest: string)
    requires ValidName(a.name) && Plain(a.value)
    ensures ParseAttribute(RenderAttr(a) + rest) == Some((RawAttr(a), rest))
  {
    hide ParseText, ParseName, ParseAttribute, ValidName, Plain, Escape;
    var value := Escape(a.value, false);
    var v := "\"" + value + "\"" + rest;
    var afterName := "=" + v;
    AttrText(a.name, value, rest);
    ParseNameFinds(a.name, afterName);
    EscapeLacks(a.value, false, '"');
    QuotedValueFound(value, rest);
    assert afterName[1..] == v && v[1..] == value + "\"" + rest;
    assert [v[0]] == "\"";
    AttributeSteps(a.name + afterName, a.name, afterName, v, value, rest);
  }

  lemma AttributeSteps(p: string, name: string, afterName: string, v: string, value: string, rest: string)
    requires ParseName(p) == Some((name, afterName))
    requires afterName != [] && afterName[0] == '=' && afterName[1..] == v
    requires v != [] && v[0] == '"' && ParseText(v[1..], [v[0]]) == Some((value, rest))
    ensures ParseAttribute(p) == Some((Attr(name, value), rest))
  {
    hide ParseName, ParseText;
    assert SkipWhiteSpace(afterName) == afterName && SkipWhiteSpace(v) == v;
  }

  /** One more attribute read from ` name="value"`. */
  lemma ParseAttributesTakes(a: Attr, rest: string, seen: seq<Attr>)
    requires ValidName(a.name) && Plain(a.value) && !NamesAttr(seen, a.name)
    ensures ParseAttributes(" " + RenderAttr(a) + rest, seen) == ParseAttributes(rest, seen + [RawAttr(a)])
  {
    hide ParseAttribute, Escape;
    var q := RenderAttr(a) + rest;
    assert " " + RenderAttr(a) + rest == " " + q;
    assert (" " + q)[1..] == q && q[0] == a.name[0];
    assert SkipWhiteSpace(q) == q;
    ParseAttributeFinds(a, rest);
  }

  lemma TagEnds(sealed: bool, rest: string, seen: seq<Attr>)
    ensures ParseAttributes((if sealed then "/>" else ">") + rest, seen) == Attributes(seen, sealed, rest)
  {
    var q := (if sealed then "/>" else ">") + rest;
    assert SkipWhiteSpace(q) == q;
    assert sealed ==> q[2..] == rest;
    assert !sealed ==> q[1..] == rest;
  }

  lemma OneMoreAttr(seen: seq<Attr>, a: Attr, rest: seq<Attr>)
    requires NormalAttrs(seen + ([a] + rest))
    ensures ValidName(a.name) && Plain(a.value) && !NamesAttr(RawAttrs(seen), a.name)
    ensures RawAttrs(seen) + [RawAttr(a)] == RawAttrs(seen + [a])
    ensures (seen + [a]) + rest == seen + ([a] + rest)
  {
    var all := seen + ([a] + rest);
    assert all[|seen|] == a;
    assert forall i :: 0 <= i < |seen| ==> all[i] == seen[i];
  }

  lemma {:induction false} ParseAttributesFinds(attrs: seq<Attr>, seen: seq<Attr>, sealed: bool, rest: string)
    requires NormalAttrs(seen + attrs)
    ensures ParseAttributes(RenderAttrs(attrs) + ((if sealed then "/>" else ">") + rest), RawAttrs(seen))
         == Attributes(RawAttrs(seen + attrs), sealed, rest)
    decreases |attrs|
  {
    hide Escape, NormalAttrs, ParseAttributes, NamesAttr;
    var end := (if sealed then "/>" else ">") + rest;
    if attrs == [] {
      TagEnds(sealed, rest, RawAttrs(seen));
      assert RenderAttrs(attrs) + end == end;
      assert seen + attrs == seen;
    } else {
      var a := attrs[0];
      assert attrs == [a] + attrs[1..];
      OneMoreAttr(seen, a, attrs[1..]);
      var more := RenderAttrs(attrs[1..]) + end;
      assert RenderAttrs(attrs) + end == " " + RenderAttr(a) + more;
      ParseAttributesTakes(a, more, RawAttrs(seen));
      ParseAttributesFinds(attrs[1..], seen + [a], sealed, rest);
    }
  }

  // ---------------------------------------------------------------- nodes

  /** A node read, and reading goes on with `rest`. */
  ghost predicate Reads(p: string, n: Node, rest: string) {
    var more := ParseChildren(rest);
    ParseChildren(p) == Children([n] + more.nodes, more.end)
  }

  lemma NodeRead(p: string, kind: Kind, start: string, n: Node, closing: Closing, endTag: Option<string>, rest: string)
    requires Identify(p) == Some((kind, start))
    requires ParseNode(kind, start) == Parsed(n, closing, endTag, rest)
    requires closing != CLOSING && (n.Element? && closing == OPEN ==> endTag == Some(n.name))
    ensures Reads(p, n, rest)
  {
    hide Identify, ParseNode, SkipWhiteSpace;
  }

  lemma ElementIdentified(gap: string, body: string)
    requires Blank(gap) && body != [] && (IsNameStartChar(body[0]) || body[0] == '/')
    ensures Identify(gap + ("<" + body)) == Some((ElementKind, body))
  {
    var q := "<" + body;
    BlankSkipped(gap, q);
    assert q[1] == body[0] && q[1..] == body;
  }

  function Header(kind: Kind): string {
    match kind
    case DeclarationKind => "<?"
    case CommentKind => "<!--"
    case CDataKind => "<![CDATA["
    case UnknownKind => "<!"
    case ElementKind => "<"
    case TextKind => []
  }

  lemma HeaderIdentified(gap: string, kind: Kind, rest: string)
    requires Blank(gap) && kind != ElementKind && kind != TextKind
    requires kind == UnknownKind ==> var q := "<!" + rest; !("<!--" <= q) && !("<![CDATA[" <= q)
    ensures Identify(gap + (Header(kind) + rest)) == Some((kind, rest))
  {
    var q := Header(kind) + rest;
    BlankSkipped(gap, q);
    assert q[..|Header(kind)|] == Header(kind) && q[|Header(kind)|..] == rest;
    match kind
    case DeclarationKind => assert q[..2] == "<?";
    case CommentKind => assert q[1] == '!' && q[..4] == "<!--";
    case CDataKind => assert q[1] == '!' && q[2] == '[' && q[..9] == "<![CDATA[";
    case UnknownKind => assert q[1] == '!' && q[..2] == "<!";
  }

  lemma TagRead(gap: string, v: string, tag: string, kind: Kind, next: string)
    requires Blank(gap) && tag != [] && FirstAtEnd(v, tag) && kind != ElementKind && kind != TextKind
    requires kind == UnknownKind ==> !("--" <= v) && !("[CDATA[" <= v) && tag == ">"
    ensures Identify(gap + (Header(kind) + v + tag + next)) == Some((kind, v + tag + next))
    ensures ParseText(v + tag + next, tag) == Some((v, next))
  {
    hide Identify, ParseText, Blank, FirstAtEnd;
    var rest := v + tag + next;
    assert Header(kind) + v + tag + next == Header(kind) + rest;
    ParseTextFinds(v, tag, next);
    if kind == UnknownKind {
      UnknownHeader(v, next);
    }
    HeaderIdentified(gap, kind, rest);
  }

  lemma UnknownHeader(v: string, next: string)
    requires !("--" <= v) && !("[CDATA[" <= v)
    ensures var q := "<!" + (v + ">" + next); !("<!--" <= q) && !("<![CDATA[" <= q) && !("<?" <= q)
  {
    var r := v + ">" + next;
    var q := "<!" + r;
    PrefixShift("<!", "--", r);
    PrefixShift("<!", "[CDATA[", r);
    NotAPrefix(v, "--", next);
    NotAPrefix(v, "[CDATA[", next);
    assert "<!" + "--" == "<!--" && "<!" + "[CDATA[" == "<![CDATA[";
    assert q[1] == '!';
  }

  lemma PrefixShift(a: string, b: string, r: string)
    ensures a + b <= a + r ==> b <= r
  {
    if a + b <= a + r {
      assert (a + r)[..|a + b|][|a|..] == (a + b)[|a|..] == b;
      assert (a + r)[..|a + b|][|a|..] == r[..|b|];
    }
  }

  lemma NotAPrefix(v: string, b: string, next: string)
    requires !(b <= v) && '>' !in b
    ensures !(b <= v + ">" + next)
  {
    var r := v + ">" + next;
    if |b| <= |v| {
      assert |b| <= |r| ==> r[..|b|] == v[..|b|];
    } else {
      assert r[|v|] == '>';
      assert b[|v|] in b;
    }
  }

  /** Leaves other than plain text. */
  lemma LeafRead(n: Node, gap: string, next: string)
    requires Normal(n) && !n.Element? && !PlainText(n) && Blank(gap)
    ensures Reads(gap + (Render(n) + next), n, next)
  {
    hide ParseText, Identify, Blank;
    match n
    case Text(v, cdata) =>
      NoOverlap(v, "]]>");
      TagRead(gap, v, "]]>", CDataKind, next);
      NodeRead(gap + (Render(n) + next), CDataKind, v + "]]>" + next, n, CLOSED, None, next);
    case Comment(v) =>
      NoOverlap(v, "-->");
      TagRead(gap, v, "-->", CommentKind, next);
      NodeRead(gap + (Render(n) + next), CommentKind, v + "-->" + next, n, CLOSED, None, next);
    case Declaration(v) =>
      NoOverlap(v, "?>");
      TagRead(gap, v, "?>", DeclarationKind, next);
      NodeRead(gap + (Render(n) + next), DeclarationKind, v + "?>" + next, n, CLOSED, None, next);
    case Unknown(v) =>
      NoOverlap(v, ">");
      TagRead(gap, v, ">", UnknownKind, next);
      NodeRead(gap + (Render(n) + next), UnknownKind, v + ">" + next, n, CLOSED, None, next);
  }

  /** A text that is not blank is not mistaken for white space before a tag. */
  lemma {:induction false} TextIdentified(v: string, rest: string)
    requires !Blank(v)
    ensures var q := SkipWhiteSpace(Escape(v, true) + rest); q != [] && q[0] != '<'
  {
    var p := Escape(v, true) + rest;
    if IsWhiteSpace(v[0]) {
      assert !Blank(v[1..]) by {
        var i :| 0 <= i < |v| && !IsWhiteSpace(v[i]);
        assert v[1..][i - 1] == v[i];
      }
      assert p[1..] == Escape(v[1..], true) + rest;
      TextIdentified(v[1..], rest);
    } else {
      assert p[0] == Escaped(v[0], true)[0];
      assert SkipWhiteSpace(p) == p;
    }
  }

  lemma TextRead(v: string, next: string)
    requires Plain(v) && !Blank(v)
    requires |next| >= 2 && next[0] == '<'
    ensures Reads(Escape(v, true) + next, Text(Escape(v, true), false), next)
  {
    hide Escape, ParseText, Blank;
    var raw := Escape(v, true);
    var p := raw + next;
    TextIdentified(v, next);
    EscapeLacks(v, true, '<');
    SingleCharFirst(raw, '<');
    assert next == "<" + next[1..];
    assert p == raw + "<" + next[1..];
    ParseTextFinds(raw, "<", next[1..]);
    assert Identify(p) == Some((TextKind, p));
    NodeRead(p, TextKind, p, Text(raw, false), CLOSED, None, next);
  }

  lemma NameThenAttrs(name: string, attrs: seq<Attr>, sealed: bool, rest: string)
    requires ValidName(name) && NormalAttrs(attrs)
    ensures var afterName := RenderAttrs(attrs) + ((if sealed then "/>" else ">") + rest);
            && ParseName(name + afterName) == Some((name, afterName))
            && ParseAttributes(afterName, []) == Attributes(RawAttrs(attrs), sealed, rest)
  {
    var afterName := RenderAttrs(attrs) + ((if sealed then "/>" else ">") + rest);
    assert afterName[0] == ' ' || afterName[0] == '/' || afterName[0] == '>';
    ParseNameFinds(name, afterName);
    assert [] + attrs == attrs;
    ParseAttributesFinds(attrs, [], sealed, rest);
  }

  /** `</name>` ends the children. */
  lemma EndTagRead(gap: string, name: string, rest: string)
    requires Blank(gap) && ValidName(name)
    ensures ParseChildren(gap + ("</" + name + ">" + rest)) == Children([], Closed(name, rest))
  {
    hide ParseName, ParseAttributes, Identify, Blank;
    var body := "/" + name + ">" + rest;
    assert "</" + name + ">" + rest == "<" + body;
    ElementIdentified(gap, body);
    NameThenAttrs(name, [], false, rest);
    assert RenderAttrs([]) + (">" + rest) == ">" + rest;
    assert SkipWhiteSpace(body) == body && body[1..] == name + (">" + rest);
    assert ParseElement(body) == Parsed(Element(name, [], []), CLOSING, None, rest);
    assert gap + ("<" + body) != [];
  }

  lemma TagText(name: string, attrs: string, end: string, rest: string)
    ensures "<" + name + attrs + end + rest == "<" + (name + (attrs + (end + rest)))
  {
  }

  lemma EmptyElementRead(gap: string, name: string, attrs: seq<Attr>, next: string)
    requires Blank(gap) && ValidName(name) && NormalAttrs(attrs)
    ensures Reads(gap + ("<" + name + RenderAttrs(attrs) + "/>" + next), Element(name, RawAttrs(attrs), []), next)
  {
    hide ParseName, ParseAttributes, Identify, Blank, NormalAttrs;
    var body := name + (RenderAttrs(attrs) + ("/>" + next));
    TagText(name, RenderAttrs(attrs), "/>", next);
    ElementIdentified(gap, body);
    NameThenAttrs(name, attrs, true, next);
    assert SkipWhiteSpace(body) == body;
    NodeRead(gap + ("<" + body), ElementKind, body, Element(name, RawAttrs(attrs), []), CLOSED, None, next);
  }

  /** An element whose content reads as `children` up to its end tag. */
  lemma OpenElementRead(gap: string, name: string, attrs: seq<Attr>, content: string, children: seq<Node>, next: string)
    requires Blank(gap) && ValidName(name) && NormalAttrs(attrs)
    requires content != [] && ParseChildren(content) == Children(children, Closed(name, next))
    ensures Reads(gap + ("<" + name + RenderAttrs(attrs) + ">" + content),
                  Element(name, RawAttrs(attrs), children), next)
  {
    hide ParseName, ParseAttributes, Identify, Blank, NormalAttrs, ParseChildren;
    var body := name + (RenderAttrs(attrs) + (">" + content));
    TagText(name, RenderAttrs(attrs), ">", content);
    ElementIdentified(gap, body);
    NameThenAttrs(name, attrs, false, content);
    assert SkipWhiteSpace(body) == body;
    ElementRead(body, name, RenderAttrs(attrs) + (">" + content), RawAttrs(attrs), content, children, next);
    NodeRead(gap + ("<" + body), ElementKind, body, Element(name, RawAttrs(attrs), children), OPEN, Some(name), next);
  }

  lemma ElementRead(body: string, name: string, afterName: string, attrs: seq<Attr>, content: string,
                    children: seq<Node>, next: string)
    requires SkipWhiteSpace(body) == body && body != [] && body[0] != '/'
    requires ParseName(body) == Some((name, afterName))
    requires ParseAttributes(afterName, []) == Attributes(attrs, false, content)
    requires content != [] && ParseChildren(content) == Children(children, Closed(name, next))
    ensures ParseElement(body) == Parsed(Element(name, attrs, children), OPEN, Some(name), next)
  {
    hide ParseName, ParseAttributes, SkipWhiteSpace;
  }

  // ---------------------------------------------------------------- whole trees

  /** What follows a list of nodes: nothing, or a tag; directly after a plain text, a tag. */
  ghost predicate Follows(tail: string, ns: seq<Node>) {
    && (ns != [] && PlainText(ns[|ns| - 1]) ==> |tail| >= 2 && tail[0] == '<')
    && ParseChildren(tail).nodes == []
  }

  lemma TextMeansHasText(ns: seq<Node>, i: nat)
    requires i < |ns| && ns[i].Text?
    ensures HasText(ns)
  {
  }

  lemma HasTextMonotone(ns: seq<Node>)
    requires ns != [] && HasText(ns[1..])
    ensures HasText(ns)
  {
    var i :| 0 <= i < |ns[1..]| && ns[1..][i].Text?;
    assert ns[i + 1].Text?;
  }

  lemma NotText(ns: seq<Node>)
    requires ns != [] && !HasText(ns)
    ensures !PlainText(ns[0]) && !HasText(ns[1..])
  {
    if HasText(ns[1..]) {
      HasTextMonotone(ns);
    }
  }

  /** After a plain text comes markup at once. */
  lemma MarkupFollowsText(ns: seq<Node>, tail: string)
    requires NormalAll(ns) && ns != [] && PlainText(ns[0]) && Follows(tail, ns)
    ensures var next := RenderAll(ns[1..]) + tail; |next| >= 2 && next[0] == '<'
  {
    hide Blank, ParseChildren, Normal, Escape, RenderAttrs;
    if |ns| > 1 {
      assert ns[1..][0] == ns[1] && !PlainText(ns[1]);
      assert |Render(ns[1])| >= 2 && Render(ns[1])[0] == '<';
    } else {
      assert RenderAll(ns[1..]) + tail == tail;
    }
  }

  /** Reading rendered nodes gives the nodes and stops where their surroundings stop. */
  lemma {:induction false} NodesRead(ns: seq<Node>, tail: string)
    requires NormalAll(ns) && Follows(tail, ns)
    ensures ParseChildren(RenderAll(ns) + tail) == Children(RawAll(ns), ParseChildren(tail).end)
    decreases ns, 1
  {
    hide ParseChildren, Render, Normal, Raw;
    if ns == [] {
      assert RenderAll(ns) + tail == tail;
    } else {
      var n := ns[0];
      var next := RenderAll(ns[1..]) + tail;
      assert ns[1..] != [] ==> ns[1..][|ns[1..]| - 1] == ns[|ns| - 1];
      NodesRead(ns[1..], tail);
      if PlainText(n) {
        MarkupFollowsText(ns, tail);
      }
      NodeReadBack(n, next);
      assert RenderAll(ns) + tail == Render(n) + next;
    }
  }

  lemma {:induction false} NodeReadBack(n: Node, next: string)
    requires Normal(n)
    requires PlainText(n) ==> |next| >= 2 && next[0] == '<'
    ensures Reads(Render(n) + next, Raw(n), next)
    decreases n, 0
  {
    NewlineBlank();
    assert "" + (Render(n) + next) == Render(n) + next;
    if n.Element? {
      if n.children == [] {
        EmptyElementRead("", n.name, n.attrs, next);
        assert Render(n) + next == "<" + n.name + RenderAttrs(n.attrs) + "/>" + next;
      } else {
        ElementReadBack(n, next);
      }
    } else if PlainText(n) {
      TextRead(n.value, next);
    } else {
      LeafRead(n, "", next);
    }
  }

  lemma {:induction false} ElementReadBack(n: Node, next: string)
    requires n.Element? && n.children != [] && Normal(n)
    ensures Reads(Render(n) + next, Raw(n), next)
    decreases n.children, 2
  {
    hide ParseChildren, Reads, RenderAll, NormalAttrs, ValidName, Blank, NormalAll, RawAttrs;
    var children, end := n.children, "</" + n.name + ">" + next;
    NewlineBlank();
    EndTagRead("", n.name, next);
    assert "" + end == end;
    NodesRead(children, end);
    var content := RenderAll(children) + end;
    OpenElementRead("", n.name, n.attrs, content, RawAll(children), next);
    ElementText("<" + n.name + RenderAttrs(n.attrs), RenderAll(children), n.name, next);
  }

  lemma ElementText(start: string, children: string, name: string, next: string)
    ensures start + (">" + children + "</" + name + ">") + next
         == "" + (start + ">" + (children + ("</" + name + ">" + next)))
  {
  }

  lemma BlankExhausted(blank: string)
    requires Blank(blank)
    ensures ParseChildren(blank) == Children([], Exhausted)
  {
    assert blank + [] == blank;
    BlankSkipped(blank, []);
  }

  lemma BlankJoin(a: string, b: string)
    requires Blank(a) && Blank(b)
    ensures Blank(a + b)
  {
  }

  lemma NewlineBlank()
    ensures Blank("\n") && Blank([])
  {
  }

  // ---------------------------------------------------------------- no NUL is ever written

  ghost predicate NoNul(s: string) {
    forall i :: 0 <= i < |s| ==> s[i] != NUL
  }

  lemma {:induction false} EscapeNoNul(s: string, restricted: bool)
    requires Plain(s)
    ensures NoNul(Escape(s, restricted))
  {
    if s != [] {
      EscapeNoNul(s[1..], restricted);
    }
  }

  lemma {:induction false} AttrsNoNul(attrs: seq<Attr>)
    requires NormalAttrs(attrs)
    ensures NoNul(RenderAttrs(attrs))
  {
    hide Escape, ValidName;
    if attrs != [] {
      NameNoNul(attrs[0].name);
      EscapeNoNul(attrs[0].value, false);
      AttrsNoNul(attrs[1..]);
    }
  }

  lemma NameNoNul(name: string)
    requires ValidName(name)
    ensures NoNul(name)
  {
  }

  lemma {:induction false} NodeNoNul(n: Node)
    requires Normal(n)
    ensures NoNul(Render(n))
    decreases n, 0
  {
    match n
    case Element(name, attrs, children) =>
      NameNoNul(name);
      AttrsNoNul(attrs);
      NodesNoNul(children);
      ElementNoNul(n);
    case Text(value, cdata) => EscapeNoNul(value, true);
    case _ =>
  }

  lemma ElementNoNul(n: Node)
    requires n.Element? && NoNul(n.name) && NoNul(RenderAttrs(n.attrs)) && NoNul(RenderAll(n.children))
    ensures NoNul(Render(n))
  {
    hide RenderAttrs, RenderAll;
  }

  lemma {:induction false} NodesNoNul(ns: seq<Node>)
    requires NormalAll(ns)
    ensures NoNul(RenderAll(ns))
    decreases ns, 1
  {
    hide Render, Normal;
    if ns != [] {
      NodeNoNul(ns[0]);
      NodesNoNul(ns[1..]);
    }
  }

  // ---------------------------------------------------------------- values

  /** Without entities, a text free of CR is read verbatim. */
  lemma {:induction false} ScanVerbatim(v: string, p: nat)
    requires Plain(v) && p <= |v|
    ensures Scan(v, p, v[..p], false, true) == Some(v)
    decreases |v| - p
  {
    if p < |v| {
      var rest := v[p..];
      assert rest[0] == v[p] && At(rest, 1) != CR;
      assert v[..p] + [v[p]] == v[..p + 1];
      ScanVerbatim(v, p + 1);
    } else {
      assert v[..p] == v;
    }
  }

  lemma {:induction false} AttrsResolve(attrs: seq<Attr>)
    requires forall i :: 0 <= i < |attrs| ==> Plain(attrs[i].value)
    ensures ResolveAttrs(RawAttrs(attrs)) == Some(attrs)
  {
    hide Scan, Escape, Plain;
    if attrs != [] {
      InPlaceRoundTrip(attrs[0].value, false);
      assert forall i :: 0 <= i < |attrs[1..]| ==> attrs[1..][i] == attrs[i + 1];
      AttrsResolve(attrs[1..]);
      assert RawAttrs(attrs)[1..] == RawAttrs(attrs[1..]);
      assert attrs == [attrs[0]] + attrs[1..];
    }
  }

  lemma {:induction false} NodeResolves(n: Node)
    requires Normal(n)
    ensures Resolve(Raw(n)) == Some(n)
    decreases n, 0
  {
    hide Scan, Escape;
    match n
    case Element(name, attrs, children) =>
      AttrsResolve(attrs);
      NodesResolve(children);
    case Text(value, cdata) =>
      if cdata {
        ScanVerbatim(value, 0);
      } else {
        InPlaceRoundTrip(value, true);
      }
    case Comment(value) => ScanVerbatim(value, 0);
    case Declaration(value) => ScanVerbatim(value, 0);
    case Unknown(value) => ScanVerbatim(value, 0);
  }

  lemma {:induction false} NodesResolve(ns: seq<Node>)
    requires NormalAll(ns)
    ensures ResolveAll(RawAll(ns)) == Some(ns)
    decreases ns, 1
  {
    hide Resolve, Raw, Normal;
    if ns != [] {
      NodeResolves(ns[0]);
      NodesResolve(ns[1..]);
      assert RawAll(ns)[1..] == RawAll(ns[1..]);
      assert ns == [ns[0]] + ns[1..];
    }
  }

  /** A byte order mark in front is noted and passed over. */
  lemma ParseMarked(s: string, bom: bool)
    requires NoNul(s) && s != [] && s[0] == '<'
    ensures var children := ParseChildren(s);
            var error := if children.end.Failed? then children.end.error else NO_ERROR;
            ParseDocument((if bom then BOM else "") + s) == Document(children.nodes, error, bom)
  {
    hide ParseChildren;
    var t := (if bom then BOM else "") + s;
    if bom {
      assert t[3..] == s && BOM <= t;
    } else {
      assert t == s && !(BOM <= s);
    }
    assert SkipWhiteSpace(t) == t;
    UpToNulWhole(t);
  }

  /** Parsing a document printed in compact form gives the document back, for every normalised document. */
  lemma PrintThenParse(doc: seq<Node>, bom: bool)
    requires doc != [] && NormalAll(doc) && !HasText(doc)
    ensures var parsed := ParseDocument((if bom then BOM else "") + RenderAll(doc));
            && parsed.error == NO_ERROR && parsed.bom == bom
            && ResolveAll(parsed.nodes) == Some(doc)
  {
    hide ParseChildren, Resolve, ResolveAll, Raw, RawAll, ParseDocument;
    var s := RenderAll(doc);
    NodesNoNul(doc);
    DocumentStarts(doc);
    ParseMarked(s, bom);
    NewlineBlank();
    BlankExhausted([]);
    LastNotText(doc);
    NodesRead(doc, []);
    assert s + [] == s;
    NodesResolve(doc);
  }

  lemma LastNotText(doc: seq<Node>)
    requires doc != [] && !HasText(doc)
    ensures !doc[|doc| - 1].Text?
  {
  }

  lemma DocumentStarts(doc: seq<Node>)
    requires doc != [] && !HasText(doc)
    ensures var s := RenderAll(doc); s != [] && s[0] == '<'
  {
    assert !doc[0].Text?;
    assert Render(doc[0])[0] == '<';
  }
}
