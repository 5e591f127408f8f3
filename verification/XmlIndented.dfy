/**
 Indented printing of any document, texts with siblings included: what exactly comes back when it is read. The writer
 indents every element, even directly after a text, so such a text comes back with blanks at its end; nothing else
 changes.
 */
module XmlIndented {
  import opened Wrappers
  import opened XmlText
  import opened XmlTree
  import opened XmlParser
  import opened XmlRoundTrip
  import opened XmlPrinter

  // ---------------------------------------------------------------- what is written

  /** The writer's text depth after a node at `depth`. */
  function After(n: Node, depth: nat, td: int): int
    decreases n, 0
  {
    match n
    case Element(_, _, children) => var t := AfterAll(children, depth + 1, td); if t == depth then -1 else t
    case Text(_, _) => depth - 1
    case Comment(_) => td
    case Declaration(_) => td
    case Unknown(_) => td
  }

  function AfterAll(ns: seq<Node>, depth: nat, td: int): int
    decreases ns, 1
  {
    if ns == [] then td else AfterAll(ns[1..], depth, After(ns[0], depth, td))
  }

  /** A line end after each element at the top. */
  function Trail(n: Node, depth: nat): string {
    if n.Element? && depth == 0 then "\n" else []
  }

  /** The white space before a node. */
  function Before(n: Node, depth: nat, td: int, first: bool): string {
    match n
    case Element(_, _, _) => (if td < 0 && !first then "\n" else "") + Spaces(depth)
    case Text(_, _) => ""
    case Comment(_) => if td < 0 && !first then "\n" + Spaces(depth) else ""
    case Declaration(_) => if td < 0 && !first then "\n" + Spaces(depth) else ""
    case Unknown(_) => if td < 0 && !first then "\n" + Spaces(depth) else ""
  }

  /** The white space before an element's end tag. */
  function EndGap(depth: nat, td: int): string {
    if td < 0 then "\n" + Spaces(depth) else ""
  }

  function Tag(n: Node): string
    requires n.Element?
  {
    "<" + n.name + RenderAttrs(n.attrs)
  }

  function Lay(n: Node, depth: nat, td: int): string
    decreases n, 0
  {
    match n
    case Element(name, attrs, children) =>
      Tag(n) + if children == [] then "/>"
               else ">" + LayAll(children, depth + 1, td, false) + EndGap(depth, AfterAll(children, depth + 1, td))
                    + "</" + name + ">"
    case Text(_, _) => Render(n)
    case Comment(_) => Render(n)
    case Declaration(_) => Render(n)
    case Unknown(_) => Render(n)
  }

  function LayAll(ns: seq<Node>, depth: nat, td: int, first: bool): string
    decreases ns, 1
  {
    if ns == [] then ""
    else
      var n := ns[0];
      Before(n, depth, td, first) + (Lay(n, depth, td)
      + (Trail(n, depth) + LayAll(ns[1..], depth, After(n, depth, td), first && n.Text?)))
  }

  // ---------------------------------------------------------------- the writer writes it

  lemma {:induction false} DrawsNode(pen: Pen, n: Node)
    requires pen.entities
    ensures var r := pen.Draw(n, false);
            && r.out == pen.out + (pen.Sealing() + Before(n, pen.depth, pen.textDepth, pen.first)
                                   + (Lay(n, pen.depth, pen.textDepth) + Trail(n, pen.depth)))
            && r == Pen(r.out, pen.depth, After(n, pen.depth, pen.textDepth), false, pen.first && n.Text?, true)
    decreases n, 0
  {
    if n.Element? {
      DrawsElement(pen, n);
    } else {
      DrawsLeaf(pen, n);
    }
  }

  lemma DrawsLeaf(pen: Pen, n: Node)
    requires pen.entities
    requires !n.Element?
    ensures var r := pen.Draw(n, false);
            && r.out == pen.out + (pen.Sealing() + Before(n, pen.depth, pen.textDepth, pen.first)
                                   + (Lay(n, pen.depth, pen.textDepth) + Trail(n, pen.depth)))
            && r == Pen(r.out, pen.depth, After(n, pen.depth, pen.textDepth), false, pen.first && n.Text?, true)
  {
    hide Escape;
    SealWrites(pen);
    var seal, gap := pen.Sealing(), Before(n, pen.depth, pen.textDepth, pen.first);
    var body := Lay(n, pen.depth, pen.textDepth);
    Regroup5(pen.out, seal, gap, body);
    if gap == "" {
      assert pen.out + seal + "" == pen.out + seal;
    } else {
      Join3(pen.out + seal, "\n", Spaces(pen.depth));
    }
  }

  lemma Regroup5(a: string, b: string, c: string, d: string)
    ensures a + b + c + d == a + (b + c + (d + ""))
  {
  }

  lemma DrawsTag(pen: Pen, n: Node)
    requires pen.entities
    requires n.Element?
    ensures var tag := pen.OpenElement(n.name, false).Attributes(n.attrs);
            && tag.out == pen.out + (pen.Sealing() + Before(n, pen.depth, pen.textDepth, pen.first) + Tag(n))
            && tag == Pen(tag.out, pen.depth + 1, pen.textDepth, true, false, true)
  {
    hide RenderAttrs;
    SealWrites(pen);
    AttributesRender(pen.OpenElement(n.name, false), n.attrs);
    var seal, line := pen.Sealing(), if pen.textDepth < 0 && !pen.first then "\n" else "";
    TagParts(pen.out, seal, line, Spaces(pen.depth), "<" + n.name, RenderAttrs(n.attrs));
    if line == "" {
      assert pen.out + seal + "" == pen.out + seal;
    }
  }

  lemma TagParts(out: string, seal: string, line: string, spaces: string, name: string, attrs: string)
    ensures out + seal + line + spaces + name + attrs == out + (seal + (line + spaces) + (name + attrs))
  {
  }

  lemma {:induction false} DrawsElement(pen: Pen, n: Node)
    requires pen.entities
    requires n.Element?
    ensures var r := pen.Draw(n, false);
            && r.out == pen.out + (pen.Sealing() + Before(n, pen.depth, pen.textDepth, pen.first)
                                   + (Lay(n, pen.depth, pen.textDepth) + Trail(n, pen.depth)))
            && r == Pen(r.out, pen.depth, After(n, pen.depth, pen.textDepth), false, false, true)
    decreases n.children, 2
  {
    hide Before, LayAll, EndGap, Tag, RenderAttrs, Pen.OpenElement, Pen.Attributes, Pen.CloseElement, Pen.Sealing;
    DrawsTag(pen, n);
    var tag := pen.OpenElement(n.name, false).Attributes(n.attrs);
    DrawsAll(tag, n.children);
    var td := AfterAll(n.children, pen.depth + 1, pen.textDepth);
    var inside := tag.DrawAll(n.children, false);
    DrawsClose(inside, n, pen.depth, td);
    var content := if n.children == [] then "" else ">" + LayAll(n.children, pen.depth + 1, pen.textDepth, false);
    if n.children == [] {
      assert tag.out + "" == tag.out;
    } else {
      assert tag.Sealing() == ">" by { Sealed(tag); }
    }
    var end := if n.children == [] then "/>" else EndGap(pen.depth, td) + "</" + n.name + ">";
    assert Lay(n, pen.depth, pen.textDepth) == Tag(n) + (content + end) by { LayParts(n, pen.depth, pen.textDepth); }
    ElementParts(pen.out, pen.Sealing() + Before(n, pen.depth, pen.textDepth, pen.first),
                 Tag(n), content, end, Trail(n, pen.depth));
  }

  lemma Sealed(pen: Pen)
    ensures pen.Sealing() == if pen.justOpened then ">" else ""
  {
  }

  lemma LayParts(n: Node, depth: nat, td: int)
    requires n.Element?
    ensures var content := if n.children == [] then "" else ">" + LayAll(n.children, depth + 1, td, false);
            var end := if n.children == [] then "/>"
                       else EndGap(depth, AfterAll(n.children, depth + 1, td)) + "</" + n.name + ">";
            Lay(n, depth, td) == Tag(n) + (content + end)
  {
    hide LayAll, EndGap, Tag, AfterAll;
  }

  lemma ElementParts(out: string, lead: string, tag: string, content: string, end: string, trail: string)
    ensures out + (lead + tag) + content + (end + trail) == out + (lead + (tag + (content + end) + trail))
  {
  }

  lemma DrawsClose(inside: Pen, n: Node, depth: nat, td: int)
    requires n.Element? && inside.depth == depth + 1 && inside.textDepth == td && !inside.first
    requires inside.justOpened == (n.children == [])
    ensures var r := inside.CloseElement(n.name, false);
            && r.out == inside.out + ((if n.children == [] then "/>" else EndGap(depth, td) + "</" + n.name + ">")
                          + Trail(n, depth))
            && r == Pen(r.out, depth, if td == depth then -1 else td, false, false, inside.entities)
  {
    hide Spaces;
    var end, trail := "</" + n.name + ">", Trail(n, depth);
    if n.children == [] {
      assert inside.out + "/>" + trail == inside.out + ("/>" + trail);
      assert inside.out + "/>" + "" == inside.out + "/>";
    } else {
      CloseParts(inside.out, Spaces(depth), "</" + n.name, trail);
      assert inside.out + end + "" == inside.out + end;
    }
  }

  lemma CloseParts(out: string, spaces: string, name: string, trail: string)
    ensures out + "\n" + spaces + (name + ">") + trail == out + ("\n" + spaces + name + ">" + trail)
    ensures out + (name + ">") + trail == out + ("" + name + ">" + trail)
    ensures out + "\n" + spaces + (name + ">") + "" == out + "\n" + spaces + (name + ">")
  {
  }

  lemma {:induction false} DrawsAll(pen: Pen, ns: seq<Node>)
    requires pen.entities
    ensures var r := pen.DrawAll(ns, false);
            && (ns == [] ==> r == pen)
            && (ns != [] ==>
                  && r.out == pen.out + (pen.Sealing() + LayAll(ns, pen.depth, pen.textDepth, pen.first))
                  && r == Pen(r.out, pen.depth, AfterAll(ns, pen.depth, pen.textDepth), false, r.first, true)
                  && (!pen.first ==> !r.first))
    decreases ns, 1
  {
    hide Pen.Draw, Before, Lay, Trail, Pen.Sealing, After;
    if ns != [] {
      DrawsNode(pen, ns[0]);
      var head := pen.Draw(ns[0], false);
      DrawsAll(head, ns[1..]);
      Sealed(head);
      var lead := pen.Sealing() + Before(ns[0], pen.depth, pen.textDepth, pen.first);
      var body, trail := Lay(ns[0], pen.depth, pen.textDepth), Trail(ns[0], pen.depth);
      var rest := LayAll(ns[1..], pen.depth, head.textDepth, head.first);
      ListParts(pen.out, pen.Sealing(), Before(ns[0], pen.depth, pen.textDepth, pen.first), body, trail, rest);
    }
  }

  lemma ListParts(out: string, seal: string, lead: string, body: string, trail: string, rest: string)
    ensures out + (seal + lead + (body + trail)) + ("" + rest) == out + (seal + (lead + (body + (trail + rest))))
    ensures rest == "" ==> out + (seal + lead + (body + trail)) == out + (seal + (lead + (body + (trail + rest))))
  {
  }

  // ---------------------------------------------------------------- what comes back

  /** A plain text directly before an element takes the element's indentation for its own. */
  function Padded(n: Node, depth: nat, beforeElement: bool): Node
    decreases n, 0
  {
    match n
    case Element(name, attrs, children) => Element(name, attrs, PaddedAll(children, depth + 1))
    case Text(value, cdata) => if !cdata && beforeElement then Text(value + Spaces(depth), false) else n
    case Comment(_) => n
    case Declaration(_) => n
    case Unknown(_) => n
  }

  function PaddedAll(ns: seq<Node>, depth: nat): (r: seq<Node>)
    ensures |r| == |ns|
    decreases ns, 1
  {
    if ns == [] then [] else [Padded(ns[0], depth, |ns| > 1 && ns[1].Element?)] + PaddedAll(ns[1..], depth)
  }

  /** No plain text stands directly before an element. */
  predicate Apart(n: Node)
    decreases n, 0
  {
    n.Element? ==> ApartAll(n.children)
  }

  predicate ApartAll(ns: seq<Node>)
    decreases ns, 1
  {
    ns == [] || (Apart(ns[0]) && ApartAll(ns[1..]) && !(|ns| > 1 && PlainText(ns[0]) && ns[1].Element?))
  }

  lemma SpacesAre(n: nat)
    ensures |Spaces(n)| == 4 * n && forall i :: 0 <= i < 4 * n ==> Spaces(n)[i] == ' '
  {
  }

  lemma {:induction false} PaddedSame(n: Node, depth: nat, beforeElement: bool)
    requires depth > 0 || !PlainText(n)
    ensures Padded(n, depth, beforeElement) == n <==> Apart(n) && !(PlainText(n) && beforeElement)
    decreases n, 0
  {
    hide Spaces;
    SpacesAre(depth);
    if n.Element? {
      PaddedSameAll(n.children, depth + 1);
    } else if PlainText(n) && beforeElement {
      assert |n.value + Spaces(depth)| > |n.value|;
    }
  }

  lemma {:induction false} PaddedSameAll(ns: seq<Node>, depth: nat)
    requires depth > 0 || !HasText(ns)
    ensures PaddedAll(ns, depth) == ns <==> ApartAll(ns)
    decreases ns, 1
  {
    hide Padded, Apart, HasText;
    if ns != [] {
      if depth == 0 {
        NotText(ns);
      }
      var b := |ns| > 1 && ns[1].Element?;
      PaddedSame(ns[0], depth, b);
      PaddedSameAll(ns[1..], depth);
      var r := PaddedAll(ns, depth);
      assert r[0] == Padded(ns[0], depth, b) && r[1..] == PaddedAll(ns[1..], depth);
      assert ns == [ns[0]] + ns[1..];
    }
  }

  lemma {:induction false} PaddedPlain(n: Node, depth: nat, b: bool)
    ensures PlainText(Padded(n, depth, b)) == PlainText(n) && Padded(n, depth, b).Element? == n.Element?
  {
  }

  lemma {:induction false} PaddedNormal(n: Node, depth: nat, b: bool)
    requires Normal(n)
    ensures Normal(Padded(n, depth, b))
    decreases n, 0
  {
    hide NormalAttrs, Spaces;
    if n.Element? {
      PaddedNormalAll(n.children, depth + 1);
    } else if PlainText(n) && b {
      PlainSpaces(n.value, depth);
    }
  }

  lemma PlainSpaces(v: string, depth: nat)
    requires Plain(v) && !Blank(v)
    ensures Plain(v + Spaces(depth)) && !Blank(v + Spaces(depth))
  {
    var w := v + Spaces(depth);
    SpacesChars(depth);
    var i :| 0 <= i < |v| && !IsWhiteSpace(v[i]);
    assert w[i] == v[i];
  }

  lemma {:induction false} SpacesChars(depth: nat)
    ensures forall i :: 0 <= i < |Spaces(depth)| ==> Spaces(depth)[i] == ' '
  {
    if depth > 0 {
      SpacesChars(depth - 1);
    }
  }

  lemma {:induction false} PaddedNormalAll(ns: seq<Node>, depth: nat)
    requires NormalAll(ns)
    ensures NormalAll(PaddedAll(ns, depth))
    decreases ns, 1
  {
    hide Normal, PlainText, Padded;
    if ns != [] {
      var b := |ns| > 1 && ns[1].Element?;
      PaddedNormal(ns[0], depth, b);
      PaddedNormalAll(ns[1..], depth);
      PaddedPlain(ns[0], depth, b);
      var r := PaddedAll(ns, depth);
      assert r[1..] == PaddedAll(ns[1..], depth);
      if |ns| > 1 {
        assert ns[1..][0] == ns[1];
        PaddedPlain(ns[1], depth, |ns[1..]| > 1 && ns[1..][1].Element?);
        assert r[1] == r[1..][0] == Padded(ns[1], depth, |ns[1..]| > 1 && ns[1..][1].Element?);
      }
    }
  }

  // ---------------------------------------------------------------- reading it

  /** Whatever white space comes before it, `tail` has no more nodes, and ends the list so. */
  ghost predicate Ends(tail: string, end: End) {
    forall blank :: Blank(blank) ==> ParseChildren(blank + tail) == Children([], end)
  }

  lemma EscapeSpaces(v: string, depth: nat)
    ensures Escape(v + Spaces(depth), true) == Escape(v, true) + Spaces(depth)
    decreases |v|
  {
    if v == "" {
      assert v + Spaces(depth) == Spaces(depth);
      SpacesEscape(depth);
    } else {
      assert (v + Spaces(depth))[1..] == v[1..] + Spaces(depth);
      EscapeSpaces(v[1..], depth);
    }
  }

  lemma SpacesEscape(depth: nat)
    ensures Escape(Spaces(depth), true) == Spaces(depth)
  {
    SpacesChars(depth);
    EscapeBlanks(Spaces(depth));
  }

  lemma {:induction false} EscapeBlanks(s: string)
    requires forall i :: 0 <= i < |s| ==> s[i] == ' '
    ensures Escape(s, true) == s
  {
    if s != "" {
      EscapeBlanks(s[1..]);
      assert s == [' '] + s[1..];
    }
  }

  lemma BeforeBlank(n: Node, depth: nat, td: int, first: bool)
    ensures Blank(Before(n, depth, td, first)) && Blank(Trail(n, depth)) && Blank(EndGap(depth, td))
  {
    SpacesBlank(depth);
    NewlineBlank();
    BlankJoin("\n", Spaces(depth));
    BlankJoin("", Spaces(depth));
  }

  /** A node's own text begins with a tag, unless it is plain text. */
  lemma LayStarts(n: Node, depth: nat, td: int)
    requires !PlainText(n)
    ensures |Lay(n, depth, td)| >= 2 && Lay(n, depth, td)[0] == '<'
  {
    hide LayAll, EndGap, RenderAttrs;
    if n.Element? {
      assert Tag(n)[0] == '<';
    }
  }

  /** What follows the first of a list of nodes. */
  function Rest(ns: seq<Node>, depth: nat, td: int, first: bool, tail: string): string
    requires ns != []
  {
    Trail(ns[0], depth) + LayAll(ns[1..], depth, After(ns[0], depth, td), first && ns[0].Text?) + tail
  }

  /** The first of a list, after white space of its own or left over, and what follows it. */
  function Laid(ns: seq<Node>, depth: nat, td: int, first: bool, lead: string, tail: string): string
    requires ns != []
  {
    lead + (Lay(ns[0], depth, td) + Rest(ns, depth, td, first, tail))
  }

  lemma RestIsLaid(ns: seq<Node>, depth: nat, td: int, first: bool, tail: string)
    requires |ns| > 1
    ensures var td', first' := After(ns[0], depth, td), first && ns[0].Text?;
            Rest(ns, depth, td, first, tail)
            == Laid(ns[1..], depth, td', first', Trail(ns[0], depth) + Before(ns[1], depth, td', first'), tail)
  {
    hide Lay, Before, Trail, After;
    var td', first' := After(ns[0], depth, td), first && ns[0].Text?;
    var rest := ns[1..];
    assert rest[0] == ns[1];
    RestParts(Trail(ns[0], depth), Before(ns[1], depth, td', first'), Lay(ns[1], depth, td'),
              Trail(ns[1], depth), LayAll(rest[1..], depth, After(ns[1], depth, td'), first' && ns[1].Text?), tail);
  }

  lemma RestParts(trail: string, lead: string, body: string, trail2: string, more: string, tail: string)
    ensures trail + (lead + (body + (trail2 + more))) + tail == trail + lead + (body + (trail2 + more + tail))
  {
  }

  /** The last node of a list being a text, the text depth says so. */
  lemma {:induction false} AfterText(ns: seq<Node>, depth: nat, td: int)
    requires ns != [] && ns[|ns| - 1].Text?
    ensures AfterAll(ns, depth, td) == depth - 1
    decreases |ns|
  {
    if |ns| > 1 {
      AfterText(ns[1..], depth, After(ns[0], depth, td));
    }
  }

  ghost predicate Readable(ns: seq<Node>, depth: nat, lead: string, tail: string, end: End) {
    && ns != [] && NormalAll(ns) && Blank(lead) && (PlainText(ns[0]) ==> lead == "")
    && Ends(tail, end)
    && (PlainText(ns[|ns| - 1]) ==> |tail| >= 2 && tail[0] == '<')
    && (depth > 0 || !HasText(ns))
  }

  lemma ReadableRest(ns: seq<Node>, depth: nat, lead: string, tail: string, end: End, lead2: string)
    requires Readable(ns, depth, lead, tail, end) && |ns| > 1 && Blank(lead2) && (PlainText(ns[1]) ==> lead2 == "")
    ensures Readable(ns[1..], depth, lead2, tail, end)
    ensures Normal(ns[0]) && !(PlainText(ns[0]) && PlainText(ns[1]))
  {
    hide Normal, PlainText, Blank, Ends;
    if HasText(ns[1..]) {
      HasTextMonotone(ns);
    }
  }

  lemma {:induction false} LaidReads(ns: seq<Node>, depth: nat, td: int, first: bool, lead: string, tail: string,
                                     end: End)
    requires Readable(ns, depth, lead, tail, end)
    ensures ParseChildren(Laid(ns, depth, td, first, lead, tail)) == Children(RawAll(PaddedAll(ns, depth)), end)
    decreases ns, 1
  {
    if PlainText(ns[0]) {
      if |ns| == 1 {
        LastTextReads(ns, depth, td, first, lead, tail, end);
      } else {
        TextThenReads(ns, depth, td, first, lead, tail, end);
      }
    } else {
      MarkupReads(ns, depth, td, first, lead, tail, end);
    }
  }

  lemma FirstText(ns: seq<Node>)
    requires ns != [] && NormalAll(ns) && PlainText(ns[0])
    ensures Plain(ns[0].value) && !Blank(ns[0].value)
  {
    assert Normal(ns[0]);
  }

  lemma LastTextReads(ns: seq<Node>, depth: nat, td: int, first: bool, lead: string, tail: string, end: End)
    requires Readable(ns, depth, lead, tail, end) && |ns| == 1 && PlainText(ns[0])
    ensures ParseChildren(Laid(ns, depth, td, first, lead, tail)) == Children(RawAll(PaddedAll(ns, depth)), end)
  {
    hide ParseChildren, Escape, Blank;
    var n := ns[0];
    FirstText(ns);
    TextRead(n.value, tail);
    NewlineBlank();
    assert "" + tail == tail;
    assert ns[1..] == [];
    assert Laid(ns, depth, td, first, lead, tail) == Escape(n.value, true) + tail;
    assert PaddedAll(ns, depth) == [n];
    assert RawAll([n]) == [Raw(n)] + RawAll([n][1..]);
    assert [n][1..] == [];
  }

  /** The blanks a text takes from the node after it. */
  function Pad(m: Node, depth: nat): string {
    if m.Element? then Spaces(depth) else ""
  }

  lemma NeedsDepth(ns: seq<Node>, depth: nat)
    requires ns != [] && ns[0].Text? && (depth > 0 || !HasText(ns))
    ensures depth > 0
  {
    TextMeansHasText(ns, 0);
  }

  /** The text and the indentation behind it are one text to the reader. */
  lemma TextLaid(ns: seq<Node>, depth: nat, td: int, first: bool, tail: string)
    requires |ns| > 1 && PlainText(ns[0]) && !PlainText(ns[1]) && depth > 0
    ensures Laid(ns, depth, td, first, "", tail)
         == Escape(ns[0].value + Pad(ns[1], depth), true) + Laid(ns[1..], depth, depth - 1, first, "", tail)
  {
    hide Escape, Spaces, LayAll, Lay, Laid, Before, Trail, Pad, Rest;
    var v, pad := ns[0].value, Pad(ns[1], depth);
    EscapePad(v, ns[1], depth);
    RestIsLaid(ns, depth, td, first, tail);
    TextAround(ns[0], ns[1], depth, td, first);
    MoveLead(ns[1..], depth, depth - 1, first, pad, tail);
    TextFirst(ns, depth, td, first, tail);
    var more := Laid(ns[1..], depth, depth - 1, first, "", tail);
    assert Escape(v, true) + (pad + more) == Escape(v, true) + pad + more;
  }

  lemma TextAround(n: Node, m: Node, depth: nat, td: int, first: bool)
    requires PlainText(n) && depth > 0 && !PlainText(m)
    ensures After(n, depth, td) == depth - 1
    ensures Trail(n, depth) + Before(m, depth, depth - 1, first) == Pad(m, depth)
  {
    assert "" + Spaces(depth) == Spaces(depth);
  }

  lemma MoveLead(ns: seq<Node>, depth: nat, td: int, first: bool, lead: string, tail: string)
    requires ns != []
    ensures Laid(ns, depth, td, first, lead, tail) == lead + Laid(ns, depth, td, first, "", tail)
  {
    hide Lay, Rest;
    var body := Lay(ns[0], depth, td) + Rest(ns, depth, td, first, tail);
    assert "" + body == body;
  }

  lemma TextFirst(ns: seq<Node>, depth: nat, td: int, first: bool, tail: string)
    requires ns != [] && PlainText(ns[0])
    ensures Laid(ns, depth, td, first, "", tail) == Escape(ns[0].value, true) + Rest(ns, depth, td, first, tail)
  {
    hide Escape, Rest;
    var body := Escape(ns[0].value, true) + Rest(ns, depth, td, first, tail);
    assert "" + body == body;
  }

  lemma EscapePad(v: string, m: Node, depth: nat)
    ensures Escape(v + Pad(m, depth), true) == Escape(v, true) + Pad(m, depth)
  {
    EscapeSpaces(v, depth);
    assert v + "" == v && Escape(v, true) + "" == Escape(v, true);
  }

  lemma LaidStarts(ns: seq<Node>, depth: nat, td: int, first: bool, tail: string)
    requires ns != [] && !PlainText(ns[0])
    ensures var p := Laid(ns, depth, td, first, "", tail); |p| >= 2 && p[0] == '<'
  {
    hide Lay, Rest;
    LayStarts(ns[0], depth, td);
    var body := Lay(ns[0], depth, td);
    assert "" + (body + Rest(ns, depth, td, first, tail)) == body + Rest(ns, depth, td, first, tail);
  }

  lemma PlainPad(v: string, m: Node, depth: nat)
    requires Plain(v) && !Blank(v)
    ensures Plain(v + Pad(m, depth)) && !Blank(v + Pad(m, depth))
  {
    PlainSpaces(v, depth);
    assert v + "" == v;
  }

  lemma PaddedFirst(ns: seq<Node>, depth: nat)
    requires ns != []
    ensures RawAll(PaddedAll(ns, depth))
         == [Raw(Padded(ns[0], depth, |ns| > 1 && ns[1].Element?))] + RawAll(PaddedAll(ns[1..], depth))
  {
    hide Padded, Raw;
    var r := PaddedAll(ns, depth);
    assert r[1..] == PaddedAll(ns[1..], depth);
  }

  lemma PaddedTextIs(n: Node, m: Node, depth: nat)
    requires PlainText(n)
    ensures Raw(Padded(n, depth, m.Element?)) == Text(Escape(n.value + Pad(m, depth), true), false)
  {
    hide Escape, Spaces;
    assert n.value + "" == n.value;
  }

  lemma {:induction false} TextThenReads(ns: seq<Node>, depth: nat, td: int, first: bool, lead: string, tail: string,
                                         end: End)
    requires Readable(ns, depth, lead, tail, end) && |ns| > 1 && PlainText(ns[0])
    ensures ParseChildren(Laid(ns, depth, td, first, lead, tail)) == Children(RawAll(PaddedAll(ns, depth)), end)
    decreases ns, 0
  {
    hide ParseChildren, Escape, Blank, Laid, NormalAll, Ends, HasText, Plain, RawAll, PaddedAll, Raw, Padded, Pad;
    var n, m := ns[0], ns[1];
    NewlineBlank();
    NeedsDepth(ns, depth);
    ReadableRest(ns, depth, lead, tail, end, "");
    assert ns[1..][0] == m;
    var next := Laid(ns[1..], depth, depth - 1, first, "", tail);
    TextLaid(ns, depth, td, first, tail);
    LaidStarts(ns[1..], depth, depth - 1, first, tail);
    PlainPad(n.value, m, depth);
    TextRead(n.value + Pad(m, depth), next);
    LaidReads(ns[1..], depth, depth - 1, first, "", tail, end);
    PaddedFirst(ns, depth);
    PaddedTextIs(n, m, depth);
  }

  lemma {:induction false} MarkupReads(ns: seq<Node>, depth: nat, td: int, first: bool, lead: string, tail: string,
                                       end: End)
    requires Readable(ns, depth, lead, tail, end) && !PlainText(ns[0])
    ensures ParseChildren(Laid(ns, depth, td, first, lead, tail)) == Children(RawAll(PaddedAll(ns, depth)), end)
    decreases ns, 0
  {
    hide ParseChildren, Blank, Lay, Rest, Normal, Ends, HasText, RawAll, PaddedAll, Raw, Padded, LayAll, Before, Trail,
      After;
    var n, next := ns[0], Rest(ns, depth, td, first, tail);
    var b := |ns| > 1 && ns[1].Element?;
    NodeLaid(n, depth, td, lead, next, b);
    PaddedFirst(ns, depth);
    if |ns| == 1 {
      assert ns[1..] == [];
      RestOfOne(ns, depth, td, first, tail);
      BeforeBlank(n, depth, td, first);
      EndsAfter(Trail(n, depth), tail, end);
      NothingPadded(depth);
    } else {
      var td', first' := After(n, depth, td), first && n.Text?;
      var lead2 := Trail(n, depth) + Before(ns[1], depth, td', first');
      RestIsLaid(ns, depth, td, first, tail);
      BeforeBlank(n, depth, td, first);
      BeforeBlank(ns[1], depth, td', first');
      BlankJoin(Trail(n, depth), Before(ns[1], depth, td', first'));
      NoLeadBeforeText(ns, depth, td', first');
      ReadableRest(ns, depth, lead, tail, end, lead2);
      LaidReads(ns[1..], depth, td', first', lead2, tail, end);
    }
  }

  lemma RestOfOne(ns: seq<Node>, depth: nat, td: int, first: bool, tail: string)
    requires |ns| == 1
    ensures Rest(ns, depth, td, first, tail) == Trail(ns[0], depth) + tail
  {
    hide Trail, After;
    assert ns[1..] == [];
    assert Trail(ns[0], depth) + "" == Trail(ns[0], depth);
  }

  lemma EndsAfter(blank: string, tail: string, end: End)
    requires Ends(tail, end) && Blank(blank)
    ensures ParseChildren(blank + tail) == Children([], end)
  {
    hide ParseChildren, Blank;
  }

  lemma NothingPadded(depth: nat)
    ensures RawAll(PaddedAll([], depth)) == []
  {
  }

  lemma NoLeadBeforeText(ns: seq<Node>, depth: nat, td: int, first: bool)
    requires |ns| > 1 && (depth > 0 || !HasText(ns))
    ensures PlainText(ns[1]) ==> Trail(ns[0], depth) + Before(ns[1], depth, td, first) == ""
  {
    if ns[1].Text? {
      TextMeansHasText(ns, 1);
    }
  }

  lemma {:induction false} NodeLaid(n: Node, depth: nat, td: int, gap: string, next: string, b: bool)
    requires Normal(n) && !PlainText(n) && Blank(gap)
    ensures Reads(gap + (Lay(n, depth, td) + next), Raw(Padded(n, depth, b)), next)
    decreases n, 0
  {
    if !n.Element? {
      hide Reads, Normal, Blank;
      LeafRead(n, gap, next);
    } else if n.children == [] {
      hide Reads, Blank, RenderAttrs, RawAttrs, NormalAttrs;
      EmptyElementRead(gap, n.name, n.attrs, next);
    } else {
      ElementLaid(n, depth, td, gap, next);
    }
  }

  lemma {:induction false} ElementLaid(n: Node, depth: nat, td: int, gap: string, next: string)
    requires n.Element? && n.children != [] && Normal(n) && Blank(gap)
    ensures Reads(gap + (Lay(n, depth, td) + next), Raw(Padded(n, depth, false)), next)
    decreases n.children, 2
  {
    hide ParseChildren, Reads, LayAll, NormalAttrs, ValidName, Blank, NormalAll, RawAttrs, HasText, PaddedAll, RawAll,
      EndGap, Before, AfterAll, Laid, Readable;
    var children, td' := n.children, AfterAll(n.children, depth + 1, td);
    var first, end := Before(children[0], depth + 1, td, false), "</" + n.name + ">" + next;
    var tail := EndGap(depth, td') + end;
    InnerReadable(n, depth, td, next);
    LaidReads(children, depth + 1, td, false, first, tail, Closed(n.name, next));
    LayAllIsLaid(children, depth + 1, td, tail);
    OpenElementRead(gap, n.name, n.attrs, LayAll(children, depth + 1, td, false) + tail,
                    RawAll(PaddedAll(children, depth + 1)), next);
    LayText("<" + n.name + RenderAttrs(n.attrs), LayAll(children, depth + 1, td, false),
            EndGap(depth, td'), n.name, next);
  }

  lemma LayText(start: string, children: string, gap: string, name: string, next: string)
    ensures start + (">" + children + gap + "</" + name + ">") + next
         == start + ">" + (children + (gap + ("</" + name + ">" + next)))
  {
  }

  lemma LayAllIsLaid(ns: seq<Node>, depth: nat, td: int, tail: string)
    requires ns != []
    ensures LayAll(ns, depth, td, false) + tail == Laid(ns, depth, td, false, Before(ns[0], depth, td, false), tail)
    ensures |LayAll(ns, depth, td, false) + tail| >= |tail|
  {
    hide Lay, Before, Trail, After;
    LaidParts(Before(ns[0], depth, td, false), Lay(ns[0], depth, td), Trail(ns[0], depth),
              LayAll(ns[1..], depth, After(ns[0], depth, td), false), tail);
  }

  lemma LaidParts(lead: string, body: string, trail: string, more: string, tail: string)
    ensures lead + (body + (trail + more)) + tail == lead + (body + (trail + more + tail))
  {
  }

  lemma InnerReadable(n: Node, depth: nat, td: int, next: string)
    requires n.Element? && n.children != [] && Normal(n)
    ensures var t := AfterAll(n.children, depth + 1, td);
            var tail := EndGap(depth, t) + ("</" + n.name + ">" + next);
            Readable(n.children, depth + 1, Before(n.children[0], depth + 1, td, false), tail, Closed(n.name, next))
  {
    hide NormalAll, NormalAttrs, ValidName, Blank, HasText, AfterAll, Ends, ParseChildren;
    var t := AfterAll(n.children, depth + 1, td);
    BeforeBlank(n.children[0], depth + 1, td, false);
    BeforeBlank(n, depth, t, false);
    EndTagEnds(EndGap(depth, t), n.name, next);
    if n.children[|n.children| - 1].Text? {
      AfterText(n.children, depth + 1, td);
      var end := "</" + n.name + ">" + next;
      assert "" + end == end;
    }
  }

  lemma EndTagEnds(gap: string, name: string, next: string)
    requires Blank(gap) && ValidName(name)
    ensures Ends(gap + ("</" + name + ">" + next), Closed(name, next))
  {
    hide ParseChildren, Blank, ValidName;
    var end := "</" + name + ">" + next;
    forall blank | Blank(blank) ensures ParseChildren(blank + (gap + end)) == Children([], Closed(name, next)) {
      BlankJoin(blank, gap);
      EndTagRead(blank + gap, name, next);
      assert blank + gap + end == blank + (gap + end);
    }
  }

  // ---------------------------------------------------------------- documents

  lemma {:induction false} LaidNoNul(n: Node, depth: nat, td: int)
    requires Normal(n)
    ensures NoNul(Lay(n, depth, td))
    decreases n, 0
  {
    if n.Element? {
      hide RenderAttrs, EndGap, AfterAll;
      NameNoNul(n.name);
      AttrsNoNul(n.attrs);
      LaidNoNulAll(n.children, depth + 1, td, false);
      BeforeBlank(n, depth, AfterAll(n.children, depth + 1, td), false);
      ElementLaidNoNul(n, depth, td);
    } else {
      hide Normal;
      NodeNoNul(n);
    }
  }

  lemma ElementLaidNoNul(n: Node, depth: nat, td: int)
    requires n.Element? && NoNul(n.name) && NoNul(RenderAttrs(n.attrs))
    requires NoNul(LayAll(n.children, depth + 1, td, false))
    requires Blank(EndGap(depth, AfterAll(n.children, depth + 1, td)))
    ensures NoNul(Lay(n, depth, td))
  {
    hide RenderAttrs, LayAll, EndGap, AfterAll;
  }

  lemma {:induction false} LaidNoNulAll(ns: seq<Node>, depth: nat, td: int, first: bool)
    requires NormalAll(ns)
    ensures NoNul(LayAll(ns, depth, td, first))
    decreases ns, 1
  {
    hide Lay, Before, Trail, After, Normal;
    if ns != [] {
      LaidNoNul(ns[0], depth, td);
      BeforeBlank(ns[0], depth, td, first);
      LaidNoNulAll(ns[1..], depth, After(ns[0], depth, td), first && ns[0].Text?);
    }
  }

  /** What the writer writes for a document, indented. */
  function Indented(doc: seq<Node>, bom: bool): string {
    Started(bom, true).DrawAll(doc, false).out
  }

  lemma IndentedIsLaid(doc: seq<Node>, bom: bool)
    requires doc != []
    ensures Indented(doc, bom) == Mark(bom) + LayAll(doc, 0, -1, true)
  {
    hide LayAll;
    DrawsAll(Started(bom, true), doc);
    assert "" + LayAll(doc, 0, -1, true) == LayAll(doc, 0, -1, true);
  }

  /**
   Any normalised document, printed with indentation and read again, comes back as it was but for the plain texts that
   stand directly before an element: these end in the blanks the element was indented by.
   */
  lemma IndentedThenParse(doc: seq<Node>, bom: bool)
    requires doc != [] && NormalAll(doc) && !HasText(doc)
    ensures var parsed := ParseDocument(Indented(doc, bom));
            && parsed.error == NO_ERROR && parsed.bom == bom
            && ResolveAll(parsed.nodes) == Some(PaddedAll(doc, 0))
  {
    hide ParseChildren, ResolveAll, RawAll, PaddedAll, LayAll, Normal, NormalAll, HasText, Indented, Laid,
      ParseDocument;
    var s := LayAll(doc, 0, -1, true);
    IndentedIsLaid(doc, bom);
    LaidNoNulAll(doc, 0, -1, true);
    TopLaid(doc);
    ParseMarked(s, bom);
    TopReadable(doc);
    LaidReads(doc, 0, -1, true, "", "", Exhausted);
    PaddedNormalAll(doc, 0);
    NodesResolve(PaddedAll(doc, 0));
  }

  lemma TopLaid(doc: seq<Node>)
    requires doc != [] && !HasText(doc)
    ensures LayAll(doc, 0, -1, true) == Laid(doc, 0, -1, true, "", "")
    ensures var s := LayAll(doc, 0, -1, true); s != [] && s[0] == '<'
  {
    hide Lay, LayAll, HasText;
    TextMeans(doc);
    LayStarts(doc[0], 0, -1);
    var body, trail := Lay(doc[0], 0, -1), Trail(doc[0], 0);
    var more := LayAll(doc[1..], 0, After(doc[0], 0, -1), false);
    assert LayAll(doc, 0, -1, true) == "" + (body + (trail + more)) by { TopUnfold(doc); }
    assert body + (trail + more) == body + (trail + more + "");
  }

  lemma TextMeans(doc: seq<Node>)
    requires doc != [] && !HasText(doc)
    ensures !doc[0].Text?
  {
  }

  lemma TopUnfold(doc: seq<Node>)
    requires doc != [] && !doc[0].Text?
    ensures LayAll(doc, 0, -1, true)
         == "" + (Lay(doc[0], 0, -1) + (Trail(doc[0], 0) + LayAll(doc[1..], 0, After(doc[0], 0, -1), false)))
  {
    hide Lay, Trail, After;
    assert "" + Spaces(0) == "";
    assert Before(doc[0], 0, -1, true) == "";
  }

  lemma TopReadable(doc: seq<Node>)
    requires doc != [] && NormalAll(doc) && !HasText(doc)
    ensures Readable(doc, 0, "", "", Exhausted)
  {
    hide NormalAll, ParseChildren, Blank;
    NewlineBlank();
    forall blank | Blank(blank) ensures ParseChildren(blank + "") == Children([], Exhausted) {
      BlankExhausted(blank);
      assert blank + "" == blank;
    }
    LastNotText(doc);
  }

  /** Indented printing loses nothing exactly when no plain text stands directly before an element. */
  lemma IndentedExact(doc: seq<Node>, bom: bool)
    requires doc != [] && NormalAll(doc) && !HasText(doc)
    ensures ResolveAll(ParseDocument(Indented(doc, bom)).nodes) == Some(doc) <==> ApartAll(doc)
  {
    hide ParseDocument, ResolveAll, PaddedAll, ApartAll, NormalAll, HasText, Indented;
    IndentedThenParse(doc, bom);
    PaddedSameAll(doc, 0);
  }
}
