/**
 The streaming writer. Its flags decide line breaks as nodes arrive; the module shows that what it
 writes is the plain rendering of the tree.
 */
module XmlPrinter {
  import opened XmlText
  import opened XmlTree
  import XmlParser
  import opened XmlRoundTrip

  /** The writer's state: text written, nesting depth, depth of the enclosing text (-1 for none), three flags. */
  datatype Pen = Pen(out: string, depth: nat, textDepth: int, justOpened: bool, first: bool, entities: bool) {
    function Write(s: string): Pen {
      this.(out := out + s)
    }

    function WriteIf(condition: bool, s: string): Pen {
      if condition then Write(s) else this
    }

    function Seal(): Pen {
      if justOpened then Write(">").(justOpened := false) else this
    }

    function OpenElement(name: string, compact: bool): (r: Pen)
      ensures r.depth == depth + 1 && r.entities == entities
    {
      Seal().WriteIf(textDepth < 0 && !first && !compact, "\n").WriteIf(!compact, Spaces(depth)).Write("<" + name)
        .(justOpened := true, first := false, depth := depth + 1)
    }

    /** Values are written as they are when entities are not to be used. */
    function Coded(value: string, restricted: bool): string {
      if entities then Escape(value, restricted) else value
    }

    function Attribute(name: string, value: string): Pen {
      Write(" " + name + "=\"").Write(Coded(value, false)).Write("\"")
    }

    function Attributes(attrs: seq<Attr>): (r: Pen)
      ensures r.depth == depth && r.entities == entities
      decreases |attrs|
    {
      if attrs == [] then this else Attribute(attrs[0].name, attrs[0].value).Attributes(attrs[1..])
    }

    function CloseElement(name: string, compact: bool): (r: Pen)
      requires depth > 0
      ensures r.depth == depth - 1 && r.entities == entities
    {
      var p := if justOpened then Write("/>")
               else var lineBreak := textDepth < 0 && !compact;
                    WriteIf(lineBreak, "\n").WriteIf(lineBreak, Spaces(depth - 1)).Write("</" + name + ">");
      p.WriteIf(depth == 1 && !compact, "\n")
       .(depth := depth - 1, textDepth := if textDepth == depth - 1 then -1 else textDepth, justOpened := false)
    }

    function PushText(value: string, cdata: bool): Pen {
      this.(textDepth := depth - 1).Seal().Write(if cdata then "<![CDATA[" + value + "]]>" else Coded(value, true))
    }

    /** Comments, declarations and unknowns. */
    function PushMarkup(markup: string, compact: bool): Pen {
      var lineBreak := textDepth < 0 && !first && !compact;
      Seal().WriteIf(lineBreak, "\n").WriteIf(lineBreak, Spaces(depth)).Write(markup).(first := false)
    }

    function Draw(n: Node, compact: bool): (r: Pen)
      ensures r.depth == depth && r.entities == entities
      decreases n, 0
    {
      match n
      case Element(name, attrs, children) =>
        OpenElement(name, compact).Attributes(attrs).DrawAll(children, compact).CloseElement(name, compact)
      case Text(value, cdata) => PushText(value, cdata)
      case Comment(value) => PushMarkup("<!--" + value + "-->", compact)
      case Declaration(value) => PushMarkup("<?" + value + "?>", compact)
      case Unknown(value) => PushMarkup("<!" + value + ">", compact)
    }

    function DrawAll(ns: seq<Node>, compact: bool): (r: Pen)
      ensures r.depth == depth && r.entities == entities
      decreases ns, 1
    {
      if ns == [] then this else Draw(ns[0], compact).DrawAll(ns[1..], compact)
    }

    function Sealing(): string {
      if justOpened then ">" else []
    }
  }

  /** A new writer that has been told whether the document has a byte order mark, and whether to use entities. */
  function Started(bom: bool, entities: bool): Pen {
    Pen(Mark(bom), 0, -1, false, true, entities)
  }

  function Mark(bom: bool): string {
    if bom then XmlParser.BOM else ""
  }

  // ---------------------------------------------------------------- compact

  lemma {:induction false} AttributesRender(pen: Pen, attrs: seq<Attr>)
    requires pen.entities
    ensures pen.Attributes(attrs) == pen.Write(RenderAttrs(attrs))
    decreases |attrs|
  {
    hide Escape;
    if attrs == [] {
      assert pen.out + [] == pen.out;
    } else {
      var one := pen.Attribute(attrs[0].name, attrs[0].value);
      var name, value := " " + attrs[0].name + "=\"", Escape(attrs[0].value, false);
      AttributesRender(one, attrs[1..]);
      Join3(pen.out, name, value);
      Join3(pen.out, name + value, "\"");
      Join3(pen.out, name + value + "\"", RenderAttrs(attrs[1..]));
    }
  }

  lemma CompactTag(pen: Pen, name: string, attrs: seq<Attr>)
    requires pen.entities
    ensures var tag := pen.OpenElement(name, true).Attributes(attrs);
            tag.out == pen.out + (pen.Sealing() + ("<" + name + RenderAttrs(attrs)))
            && tag.justOpened && tag.depth == pen.depth + 1
  {
    hide RenderAttrs;
    var seal := pen.Sealing();
    AttributesRender(pen.OpenElement(name, true), attrs);
    SealWrites(pen);
    Join3(pen.out, seal, "<" + name);
    Join3(pen.out, seal + ("<" + name), RenderAttrs(attrs));
    Join3(seal, "<" + name, RenderAttrs(attrs));
  }

  lemma SealWrites(pen: Pen)
    ensures pen.Seal() == pen.Write(pen.Sealing()).(justOpened := false)
  {
    assert pen.out + [] == pen.out;
  }

  lemma {:induction false} CompactDraws(pen: Pen, n: Node)
    requires pen.entities
    ensures var r := pen.Draw(n, true);
            r.out == pen.out + (pen.Sealing() + Render(n)) && !r.justOpened
    decreases n, 0
  {
    var seal := pen.Sealing();
    if n.Element? {
      hide Pen.OpenElement, Pen.Attributes, Pen.Seal, RenderAttrs, RenderAll;
      var tag := pen.OpenElement(n.name, true).Attributes(n.attrs);
      var start := "<" + n.name + RenderAttrs(n.attrs);
      CompactTag(pen, n.name, n.attrs);
      CompactDrawsAll(tag, n.children);
      CompactClose(pen, n, start, tag);
    } else {
      hide Escape;
      SealWrites(pen);
      Join3(pen.out, seal, Render(n));
    }
  }

  lemma CompactClose(pen: Pen, n: Node, start: string, tag: Pen)
    requires n.Element? && start == "<" + n.name + RenderAttrs(n.attrs)
    requires tag.out == pen.out + (pen.Sealing() + start) && tag.justOpened && tag.depth == pen.depth + 1
    requires var r := tag.DrawAll(n.children, true);
             && (n.children == [] ==> r == tag)
             && (n.children != [] ==> r.out == tag.out + (">" + RenderAll(n.children)) && !r.justOpened)
    ensures var r := tag.DrawAll(n.children, true).CloseElement(n.name, true);
            r.out == pen.out + (pen.Sealing() + Render(n)) && !r.justOpened
  {
    hide RenderAttrs, RenderAll;
    var content := RenderAll(n.children);
    var end := if n.children == [] then "/>" else ">" + content + ("</" + n.name + ">");
    var r := tag.DrawAll(n.children, true).CloseElement(n.name, true);
    if n.children != [] {
      Join3(tag.out, ">" + content, "</" + n.name + ">");
    }
    assert r.out == tag.out + end;
    Join3(pen.out, pen.Sealing() + start, end);
    Join3(pen.Sealing(), start, end);
    assert Render(n) == start + end;
  }

  lemma {:induction false} CompactDrawsAll(pen: Pen, ns: seq<Node>)
    requires pen.entities
    ensures var r := pen.DrawAll(ns, true);
            && (ns == [] ==> r == pen)
            && (ns != [] ==> r.out == pen.out + (pen.Sealing() + RenderAll(ns)) && !r.justOpened)
    decreases ns, 1
  {
    hide Pen.Draw, Render;
    if ns != [] {
      var head := pen.Draw(ns[0], true);
      var body, rest := Render(ns[0]), RenderAll(ns[1..]);
      CompactDraws(pen, ns[0]);
      CompactDrawsAll(head, ns[1..]);
      assert head.Sealing() + rest == rest;
      Join3(pen.out, pen.Sealing() + body, rest);
      Join3(pen.Sealing(), body, rest);
      assert RenderAll(ns) == body + rest;
      if ns[1..] == [] {
        assert body + rest == body;
      }
    }
  }

  /** What the writer writes for a document in compact form is its plain rendering, behind the mark if it has one. */
  lemma WriterRenders(doc: seq<Node>, bom: bool)
    ensures Started(bom, true).DrawAll(doc, true).out == Mark(bom) + RenderAll(doc)
  {
    CompactDrawsAll(Started(bom, true), doc);
    assert "" + RenderAll(doc) == RenderAll(doc) && Mark(bom) + "" == Mark(bom);
  }

  // ---------------------------------------------------------------- the writer

  lemma {:induction false} EscapeAppend(s: string, c: char, restricted: bool)
    ensures Escape(s + [c], restricted) == Escape(s, restricted) + Escaped(c, restricted)
  {
    if s == [] {
      assert [] + [c] == [c];
    } else {
      assert (s + [c])[1..] == s[1..] + [c];
      EscapeAppend(s[1..], c, restricted);
    }
  }

  lemma OneMoreEscaped(s: string, p: nat, q: nat, restricted: bool, before: string, buffer: string)
    requires p <= q < |s| && buffer + s[p..q] == before + Escape(s[..q], restricted)
    ensures buffer + s[p..q] + Escaped(s[q], restricted) == before + Escape(s[..q + 1], restricted)
    ensures !Flagged(s[q], restricted) ==> buffer + s[p..q + 1] == before + Escape(s[..q + 1], restricted)
  {
    hide Escape;
    EscapeAppend(s[..q], s[q], restricted);
    assert s[..q + 1] == s[..q] + [s[q]];
    Join3(before, Escape(s[..q], restricted), Escaped(s[q], restricted));
    if !Flagged(s[q], restricted) {
      assert s[p..q + 1] == s[p..q] + [s[q]];
      Join3(buffer, s[p..q], [s[q]]);
    }
  }

  const ENTITY_RANGE := 64 as char

  /** Whether the character is in the table of entities to be written. */
  predicate Flagged(c: char, restricted: bool) {
    c == '&' || c == '<' || c == '>' || (!restricted && (c == '"' || c == '\''))
  }

  /** Writes a document node by node into a buffer. */
  class XMLPrinter {
    var elementJustOpened: bool
    var firstElement: bool
    var depth: nat
    var textDepth: int
    var stack: seq<string>
    var buffer: string
    var processEntities: bool
    const compactMode: bool

    function State(): Pen
      reads this
    {
      Pen(buffer, depth, textDepth, elementJustOpened, firstElement, processEntities)
    }

    constructor (compactMode: bool)
      ensures State() == Started(false, true) && stack == [] && this.compactMode == compactMode
    {
      this.compactMode, processEntities := compactMode, true;
      elementJustOpened, firstElement, depth, textDepth := false, true, 0, -1;
      stack, buffer := [], [];
    }

    /** Writes runs of ordinary characters and entities in place of flagged ones. */
    method PrintString(s: string, restricted: bool)
      modifies this`buffer
      ensures buffer == old(buffer) + if processEntities then Escape(s, restricted) else s
    {
      var p, q := 0, 0;
      if processEntities {
        while q < |s|
          invariant 0 <= p <= q <= |s|
          invariant buffer + s[p..q] == old(buffer) + Escape(s[..q], restricted)
        {
          OneMoreEscaped(s, p, q, restricted, old(buffer), buffer);
          if 0 as char < s[q] < ENTITY_RANGE && Flagged(s[q], restricted) {
            PrintRun(s, p, q);
            buffer := buffer + Escaped(s[q], restricted);
            p := q + 1;
            assert buffer + s[p..p] == buffer;
          }
          q := q + 1;
        }
        assert s[..q] == s;
      }
      if !processEntities || q - p > 0 {
        buffer := buffer + s[p..];
      }
    }

    method PrintRun(s: string, from: nat, to: nat)
      requires from <= to <= |s|
      modifies this`buffer
      ensures buffer == old(buffer) + s[from..to]
    {
      var p := from;
      while p < to
        invariant from <= p <= to
        invariant buffer == old(buffer) + s[from..p]
      {
        buffer := buffer + [s[p]];
        assert s[from..p + 1] == s[from..p] + [s[p]];
        p := p + 1;
      }
    }

    method PrintSpace(n: nat)
      modifies this`buffer
      ensures buffer == old(buffer) + Spaces(n)
    {
      var i := 0;
      while i < n
        invariant 0 <= i <= n
        invariant buffer + Spaces(n - i) == old(buffer) + Spaces(n)
      {
        Join3(buffer, "    ", Spaces(n - i - 1));
        buffer := buffer + "    ";
        i := i + 1;
      }
    }

    method SealElement()
      modifies this`buffer, this`elementJustOpened
      ensures State() == old(State()).Write(">").(justOpened := false)
    {
      elementJustOpened := false;
      buffer := buffer + ">";
    }

    method OpenElement(name: string, compact: bool)
      modifies this
      ensures State() == old(State()).OpenElement(name, compact)
      ensures stack == old(stack) + [name]
    {
      if elementJustOpened {
        SealElement();
      }
      stack := stack + [name];
      if textDepth < 0 && !firstElement && !compact {
        buffer := buffer + "\n";
      }
      if !compact {
        PrintSpace(depth);
      }
      buffer := buffer + ("<" + name);
      elementJustOpened, firstElement := true, false;
      depth := depth + 1;
    }

    method PushAttribute(name: string, value: string)
      modifies this`buffer
      ensures State() == old(State()).Attribute(name, value)
    {
      buffer := buffer + (" " + name + "=\"");
      PrintString(value, false);
      buffer := buffer + "\"";
    }

    method CloseElement(compact: bool)
      requires depth > 0 && stack != []
      modifies this
      ensures State() == old(State()).CloseElement(old(stack)[|old(stack)| - 1], compact)
      ensures stack == old(stack)[..|old(stack)| - 1]
    {
      depth := depth - 1;
      var name := stack[|stack| - 1];
      stack := stack[..|stack| - 1];
      if elementJustOpened {
        buffer := buffer + "/>";
      } else {
        if textDepth < 0 && !compact {
          buffer := buffer + "\n";
          PrintSpace(depth);
        }
        buffer := buffer + ("</" + name + ">");
      }
      if textDepth == depth {
        textDepth := -1;
      }
      if depth == 0 && !compact {
        buffer := buffer + "\n";
      }
      elementJustOpened := false;
    }

    method PushText(text: string, cdata: bool)
      modifies this
      ensures State() == old(State()).PushText(text, cdata) && stack == old(stack)
    {
      textDepth := depth - 1;
      if elementJustOpened {
        SealElement();
      }
      ghost var sealed := buffer;
      if cdata {
        buffer := buffer + "<![CDATA[";
        buffer := buffer + text;
        buffer := buffer + "]]>";
        assert buffer == sealed + ("<![CDATA[" + text + "]]>");
      } else {
        PrintString(text, true);
      }
    }

    /** Comments, declarations and unknowns differ only in what encloses their value. */
    method PushMarkup(markup: string)
      modifies this
      ensures State() == old(State()).PushMarkup(markup, compactMode) && stack == old(stack)
    {
      if elementJustOpened {
        SealElement();
      }
      if textDepth < 0 && !firstElement && !compactMode {
        buffer := buffer + "\n";
        PrintSpace(depth);
      }
      firstElement := false;
      buffer := buffer + markup;
    }

    /** Visits a node and its children. */
    method Accept(n: Node)
      modifies this
      ensures State() == old(State()).Draw(n, compactMode) && stack == old(stack)
      decreases n, 0
    {
      hide Pen.OpenElement, Pen.Attributes, Pen.CloseElement, Pen.PushText, Pen.PushMarkup;
      match n
      case Element(name, attrs, children) =>
        OpenElement(name, compactMode);
        VisitAttributes(attrs);
        AcceptAll(children);
        assert stack[..|stack| - 1] == old(stack);
        CloseElement(compactMode);
      case Text(value, cdata) => PushText(value, cdata);
      case Comment(value) => PushMarkup("<!--" + value + "-->");
      case Declaration(value) => PushMarkup("<?" + value + "?>");
      case Unknown(value) => PushMarkup("<!" + value + ">");
    }

    method VisitAttributes(attrs: seq<Attr>)
      modifies this`buffer
      ensures State() == old(State()).Attributes(attrs)
    {
      var i := 0;
      assert attrs[0..] == attrs;
      while i < |attrs|
        invariant 0 <= i <= |attrs|
        invariant State().Attributes(attrs[i..]) == old(State()).Attributes(attrs)
      {
        PushAttribute(attrs[i].name, attrs[i].value);
        assert attrs[i..][1..] == attrs[i + 1..];
        i := i + 1;
      }
    }

    method AcceptAll(ns: seq<Node>)
      modifies this
      ensures State() == old(State()).DrawAll(ns, compactMode) && stack == old(stack)
      decreases ns, 1
    {
      hide Pen.Draw;
      var i := 0;
      assert ns[0..] == ns;
      while i < |ns|
        invariant 0 <= i <= |ns| && stack == old(stack)
        invariant State().DrawAll(ns[i..], compactMode) == old(State()).DrawAll(ns, compactMode)
      {
        Accept(ns[i]);
        assert ns[i..][1..] == ns[i + 1..];
        i := i + 1;
      }
    }

    /** The document decides about entities, and whether the text begins with a byte order mark. */
    method VisitEnter(bom: bool, entities: bool)
      requires State() == Started(false, true)
      modifies this`processEntities, this`buffer
      ensures State() == Started(bom, entities)
    {
      processEntities := entities;
      if bom {
        buffer := buffer + XmlParser.BOM;
      }
    }

    /** Prints a whole document into a fresh writer. */
    method Print(doc: seq<Node>, bom: bool, entities: bool)
      requires State() == Started(false, true)
      modifies this
      ensures buffer == Started(bom, entities).DrawAll(doc, compactMode).out && stack == old(stack)
      ensures compactMode && entities ==> buffer == Mark(bom) + RenderAll(doc)
    {
      VisitEnter(bom, entities);
      AcceptAll(doc);
      WriterRenders(doc, bom);
    }
  }
}
