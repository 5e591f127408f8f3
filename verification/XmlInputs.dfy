/**
 What the reader makes of input that the writer does not write: attributes in either quotes and with any white space,
 tags that do not match, and nodes that do not end.
 */
module XmlInputs {
  import opened Wrappers
  import opened XmlText
  import opened XmlTree
  import opened XmlParser
  import opened XmlRoundTrip
  import XmlMeaning

  // ---------------------------------------------------------------- attributes

  /** White space before the name, before and after the equals sign; either quote, which is not in the value. */
  datatype Written = Written(gap: string, name: string, before: string, after: string, quote: char, value: string)

  predicate Fine(w: Written) {
    && Blank(w.gap) && ValidName(w.name) && Blank(w.before) && Blank(w.after)
    && (w.quote == '"' || w.quote == '\'') && w.quote !in w.value
  }

  function TextOf(w: Written): string {
    w.gap + (w.name + (w.before + ("=" + (w.after + ([w.quote] + (w.value + [w.quote]))))))
  }

  function AllText(ws: seq<Written>): string {
    if ws == [] then "" else TextOf(ws[0]) + AllText(ws[1..])
  }

  /** The attributes with their values as written, references and line ends still to be read. */
  function AttrsOf(ws: seq<Written>): seq<Attr> {
    seq(|ws|, i requires 0 <= i < |ws| => Attr(ws[i].name, ws[i].value))
  }

  predicate AllFine(ws: seq<Written>) {
    forall i :: 0 <= i < |ws| ==> Fine(ws[i])
  }

  predicate NamesDiffer(ws: seq<Written>) {
    forall i, j :: 0 <= i < j < |ws| ==> ws[i].name != ws[j].name
  }

  lemma {:induction false} QuoteEnds(value: string, quote: char, rest: string)
    requires quote !in value
    ensures ParseText(value + [quote] + rest, [quote]) == Some((value, rest))
  {
    SingleCharFirst(value, quote);
    ParseTextFinds(value, [quote], rest);
  }

  lemma AttributeRead(w: Written, rest: string)
    requires Fine(w)
    ensures ParseAttribute(TextOf(w)[|w.gap|..] + rest) == Some((Attr(w.name, w.value), rest))
  {
    hide ParseName, ParseText, SkipWhiteSpace, ValidName, Blank;
    var quoted := [w.quote] + (w.value + [w.quote] + rest);
    var afterName := w.before + ("=" + (w.after + quoted));
    var p := w.name + afterName;
    assert TextOf(w)[|w.gap|..] + rest == p;
    NameEnds(w, quoted);
    ParseNameFinds(w.name, afterName);
    NotBlank();
    BlankSkipped(w.before, "=" + (w.after + quoted));
    BlankSkipped(w.after, quoted);
    assert ("=" + (w.after + quoted))[1..] == w.after + quoted;
    assert quoted[1..] == w.value + [w.quote] + rest;
    QuoteEnds(w.value, w.quote, rest);
  }

  lemma NotBlank()
    ensures !IsWhiteSpace('=') && !IsWhiteSpace('"') && !IsWhiteSpace('\'') && !IsNameChar('=')
    ensures forall c :: IsNameStartChar(c) ==> !IsWhiteSpace(c)
    ensures forall c :: IsWhiteSpace(c) ==> !IsNameChar(c)
  {
  }

  lemma NameEnds(w: Written, quoted: string)
    requires Blank(w.before)
    ensures var afterName := w.before + ("=" + (w.after + quoted)); afterName != [] && !IsNameChar(afterName[0])
  {
    var afterName := w.before + ("=" + (w.after + quoted));
    if w.before != "" {
      assert afterName[0] == w.before[0];
    } else {
      assert afterName[0] == '=';
    }
  }

  lemma AttributeTaken(w: Written, rest: string, seen: seq<Attr>)
    requires Fine(w)
    ensures ParseAttributes(TextOf(w) + rest, seen)
         == if NamesAttr(seen, w.name) then BadAttributes(PARSING_ATTRIBUTE)
            else ParseAttributes(rest, seen + [Attr(w.name, w.value)])
  {
    hide ParseAttribute, NamesAttr, Blank;
    AttributeRead(w, rest);
    var q := TextOf(w)[|w.gap|..] + rest;
    assert TextOf(w) + rest == w.gap + q;
    assert q[0] == w.name[0];
    NotBlank();
    BlankSkipped(w.gap, q);
  }

  /** Attributes are read in order, however they are written; `gap` is white space before the end of the tag. */
  lemma {:induction false} AttributesRead(ws: seq<Written>, seen: seq<Attr>, gap: string, sealed: bool, rest: string)
    requires AllFine(ws) && NamesDiffer(ws) && Blank(gap)
    requires forall i, j :: 0 <= i < |ws| && 0 <= j < |seen| ==> ws[i].name != seen[j].name
    ensures ParseAttributes(AllText(ws) + (gap + ((if sealed then "/>" else ">") + rest)), seen)
         == Attributes(seen + AttrsOf(ws), sealed, rest)
    decreases |ws|
  {
    hide ParseAttributes, TextOf, Fine, Blank;
    var end := gap + ((if sealed then "/>" else ">") + rest);
    if ws == [] {
      assert AllText(ws) + end == end && seen + AttrsOf(ws) == seen;
      EndAfterGap(gap, sealed, rest, seen);
    } else {
      var w, more := ws[0], AllText(ws[1..]) + end;
      assert AllText(ws) + end == TextOf(w) + more;
      assert Fine(w) && !NamesAttr(seen, w.name);
      AttributeTaken(w, more, seen);
      AttributesRead(ws[1..], seen + [Attr(w.name, w.value)], gap, sealed, rest);
      assert seen + [Attr(w.name, w.value)] + AttrsOf(ws[1..]) == seen + AttrsOf(ws);
    }
  }

  lemma EndAfterGap(gap: string, sealed: bool, rest: string, seen: seq<Attr>)
    requires Blank(gap)
    ensures ParseAttributes(gap + ((if sealed then "/>" else ">") + rest), seen) == Attributes(seen, sealed, rest)
  {
    var q := (if sealed then "/>" else ">") + rest;
    BlankSkipped(gap, q);
    assert sealed ==> q[2..] == rest;
    assert !sealed ==> q[1..] == rest;
  }

  /** A name given twice is an error, wherever the second one stands. */
  lemma {:induction false} AttributeTwice(ws: seq<Written>, again: Written, seen: seq<Attr>, rest: string)
    requires AllFine(ws) && Fine(again) && NamesDiffer(ws)
    requires forall i, j :: 0 <= i < |ws| && 0 <= j < |seen| ==> ws[i].name != seen[j].name
    requires (exists i :: 0 <= i < |ws| && ws[i].name == again.name) || NamesAttr(seen, again.name)
    ensures ParseAttributes(AllText(ws) + (TextOf(again) + rest), seen) == BadAttributes(PARSING_ATTRIBUTE)
    decreases |ws|
  {
    hide ParseAttributes, TextOf, Fine;
    var end := TextOf(again) + rest;
    if ws == [] {
      assert AllText(ws) + end == end;
      AttributeTaken(again, rest, seen);
    } else {
      var w, more := ws[0], AllText(ws[1..]) + end;
      assert AllText(ws) + end == TextOf(w) + more;
      assert Fine(w) && !NamesAttr(seen, w.name);
      AttributeTaken(w, more, seen);
      var seen' := seen + [Attr(w.name, w.value)];
      assert NamesAttr(seen', again.name) || exists i :: 0 <= i < |ws[1..]| && ws[1..][i].name == again.name by {
        Still(ws, again, seen);
      }
      AttributeTwice(ws[1..], again, seen', rest);
    }
  }

  lemma Still(ws: seq<Written>, again: Written, seen: seq<Attr>)
    requires ws != [] && ((exists i :: 0 <= i < |ws| && ws[i].name == again.name) || NamesAttr(seen, again.name))
    ensures NamesAttr(seen + [Attr(ws[0].name, ws[0].value)], again.name)
         || exists i :: 0 <= i < |ws[1..]| && ws[1..][i].name == again.name
  {
    var seen' := seen + [Attr(ws[0].name, ws[0].value)];
    if NamesAttr(seen, again.name) {
      var i :| 0 <= i < |seen| && seen[i].name == again.name;
      assert seen'[i].name == again.name;
    } else {
      var i :| 0 <= i < |ws| && ws[i].name == again.name;
      if i == 0 {
        assert seen'[|seen|].name == again.name;
      } else {
        assert ws[1..][i - 1].name == again.name;
      }
    }
  }

  // ---------------------------------------------------------------- elements

  /** The start of an element, up to the end of its tag. */
  function StartTag(name: string, ws: seq<Written>, gap: string, sealed: bool): string {
    name + (AllText(ws) + (gap + (if sealed then "/>" else ">")))
  }

  predicate FineTag(name: string, ws: seq<Written>, gap: string) {
    ValidName(name) && AllFine(ws) && NamesDiffer(ws) && Blank(gap) && (ws != [] ==> ws[0].gap != "")
  }

  /** What stands in an open element decides what the element is read as. */
  lemma ElementOpens(name: string, ws: seq<Written>, gap: string, content: string)
    requires FineTag(name, ws, gap) && content != []
    ensures var r, children := ParseElement(StartTag(name, ws, gap, false) + content), ParseChildren(content);
            match children.end
            case Closed(endName, after) =>
              r == Parsed(Element(name, AttrsOf(ws), children.nodes), OPEN, Some(endName), after)
            case Exhausted => r == Null(NO_ERROR)
            case Failed(error) => r == Null(error)
  {
    hide ParseName, ParseAttributes, SkipWhiteSpace, ParseChildren, FineTag;
    TagSplits(name, ws, gap, false, content);
  }

  /** The name and the attributes of a tag are read off it. */
  lemma TagSplits(name: string, ws: seq<Written>, gap: string, sealed: bool, rest: string)
    requires FineTag(name, ws, gap)
    ensures var body := StartTag(name, ws, gap, sealed) + rest;
            && body != [] && body[0] != '/' && SkipWhiteSpace(body) == body && IsNameStartChar(body[0])
            && ParseName(body).Some? && ParseName(body).value.0 == name
            && ParseAttributes(ParseName(body).value.1, []) == Attributes(AttrsOf(ws), sealed, rest)
  {
    hide ParseName, ParseAttributes, AllFine, NamesDiffer, TextOf;
    var end := gap + ((if sealed then "/>" else ">") + rest);
    var after := AllText(ws) + end;
    assert StartTag(name, ws, gap, sealed) + rest == name + after;
    assert name[0] == (name + after)[0];
    NotBlank();
    AfterName(ws, gap, sealed, rest);
    ParseNameFinds(name, after);
    AttributesRead(ws, [], gap, sealed, rest);
    assert [] + AttrsOf(ws) == AttrsOf(ws);
  }

  lemma AfterName(ws: seq<Written>, gap: string, sealed: bool, rest: string)
    requires AllFine(ws) && Blank(gap) && (ws != [] ==> ws[0].gap != "")
    ensures var after := AllText(ws) + (gap + ((if sealed then "/>" else ">") + rest));
            after != [] && !IsNameChar(after[0])
  {
    var end := gap + ((if sealed then "/>" else ">") + rest);
    var after := AllText(ws) + end;
    if ws != [] {
      assert Fine(ws[0]);
      assert after[0] == TextOf(ws[0])[0] == ws[0].gap[0];
      NotBlank();
    } else {
      assert after == end;
      if gap != "" {
        assert end[0] == gap[0];
        NotBlank();
      }
    }
  }

  /** A whole element: tags with attributes in any form, and any content that its own end tag ends. */
  lemma ElementReads(lead: string, name: string, ws: seq<Written>, gap: string, content: string, children: seq<Node>,
                     next: string)
    requires Blank(lead) && FineTag(name, ws, gap)
    requires content != [] && ParseChildren(content) == Children(children, Closed(name, next))
    ensures Reads(lead + ("<" + (StartTag(name, ws, gap, false) + content)), Element(name, AttrsOf(ws), children), next)
  {
    hide ParseName, ParseAttributes, SkipWhiteSpace, ParseChildren, FineTag, Blank, Identify, ParseElement, StartTag;
    var body := StartTag(name, ws, gap, false) + content;
    TagSplits(name, ws, gap, false, content);
    ElementIdentified(lead, body);
    ElementOpens(name, ws, gap, content);
    NodeRead(lead + ("<" + body), ElementKind, body, Element(name, AttrsOf(ws), children), OPEN, Some(name), next);
  }

  /** An element that another element's end tag ends is an error. */
  lemma TagsMustMatch(lead: string, name: string, ws: seq<Written>, gap: string, content: string, children: seq<Node>,
                      other: string, next: string)
    requires Blank(lead) && FineTag(name, ws, gap) && other != name
    requires content != [] && ParseChildren(content) == Children(children, Closed(other, next))
    ensures ParseChildren(lead + ("<" + (StartTag(name, ws, gap, false) + content)))
         == Children([], Failed(MISMATCHED_ELEMENT))
  {
    hide ParseName, ParseAttributes, SkipWhiteSpace, FineTag, Blank, Identify, ParseElement, StartTag;
    var body := StartTag(name, ws, gap, false) + content;
    TagSplits(name, ws, gap, false, content);
    ElementIdentified(lead, body);
    ElementOpens(name, ws, gap, content);
  }

  /** An element that nothing ends is an error. */
  lemma ElementMustEnd(lead: string, name: string, ws: seq<Written>, gap: string, content: string)
    requires Blank(lead) && FineTag(name, ws, gap)
    requires content != [] && ParseChildren(content).end == Exhausted
    ensures ParseChildren(lead + ("<" + (StartTag(name, ws, gap, false) + content))) == Children([], Failed(PARSING))
  {
    hide ParseName, ParseAttributes, SkipWhiteSpace, FineTag, Blank, Identify, ParseElement, StartTag;
    var body := StartTag(name, ws, gap, false) + content;
    TagSplits(name, ws, gap, false, content);
    ElementIdentified(lead, body);
    ElementOpens(name, ws, gap, content);
  }

  /** An open tag that is all there is left is an error of mismatched elements. */
  lemma OpenAtEnd(lead: string, name: string, ws: seq<Written>, gap: string)
    requires Blank(lead) && FineTag(name, ws, gap)
    ensures ParseChildren(lead + ("<" + StartTag(name, ws, gap, false))) == Children([], Failed(MISMATCHED_ELEMENT))
  {
    hide ParseName, ParseAttributes, SkipWhiteSpace, FineTag, Blank, Identify, StartTag;
    var body := StartTag(name, ws, gap, false);
    assert body + "" == body;
    TagSplits(name, ws, gap, false, "");
    ElementIdentified(lead, body);
    assert ParseElement(body) == Parsed(Element(name, AttrsOf(ws), []), OPEN, None, "");
  }

  /** A sealed tag is an element without children. */
  lemma SealedReads(lead: string, name: string, ws: seq<Written>, gap: string, next: string)
    requires Blank(lead) && FineTag(name, ws, gap)
    ensures Reads(lead + ("<" + (StartTag(name, ws, gap, true) + next)), Element(name, AttrsOf(ws), []), next)
  {
    hide ParseName, ParseAttributes, SkipWhiteSpace, FineTag, Blank, Identify, StartTag, ParseChildren;
    var body := StartTag(name, ws, gap, true) + next;
    TagSplits(name, ws, gap, true, next);
    ElementIdentified(lead, body);
    assert ParseElement(body) == Parsed(Element(name, AttrsOf(ws), []), CLOSED, None, next);
    NodeRead(lead + ("<" + body), ElementKind, body, Element(name, AttrsOf(ws), []), CLOSED, None, next);
  }

  /** So in a document: what stands before is read, and the first tag that does not match stops the reader. */
  lemma WrongEndTag(before: seq<Node>, name: string, ws: seq<Written>, gap: string, children: seq<Node>, other: string,
                    rest: string)
    requires NormalAll(before) && NormalAll(children)
    requires FineTag(name, ws, gap) && ValidName(other) && other != name
    ensures var tag, ending := StartTag(name, ws, gap, false), "</" + other + ">" + rest;
            ParseChildren(RenderAll(before) + ("<" + (tag + (RenderAll(children) + ending))))
            == Children(RawAll(before), Failed(MISMATCHED_ELEMENT))
  {
    hide ParseChildren, NormalAll, RenderAll, RawAll, FineTag, ValidName, StartTag, Blank;
    var end := "</" + other + ">" + rest;
    var content := RenderAll(children) + end;
    NewlineBlank();
    EndTagRead("", other, rest);
    assert "" + end == end;
    NodesRead(children, end);
    var tag := "<" + (StartTag(name, ws, gap, false) + content);
    TagsMustMatch("", name, ws, gap, content, RawAll(children), other, rest);
    assert "" + tag == tag;
    TagLong(name, ws, gap, content);
    NodesRead(before, tag);
  }

  lemma TagLong(name: string, ws: seq<Written>, gap: string, content: string)
    ensures var tag := "<" + (StartTag(name, ws, gap, false) + content); |tag| >= 2 && tag[0] == '<'
  {
  }

  // ---------------------------------------------------------------- nodes that do not end

  function EndOf(kind: Kind): string {
    match kind
    case DeclarationKind => "?>"
    case CommentKind => "-->"
    case CDataKind => "]]>"
    case UnknownKind => ">"
    case ElementKind => ">"
    case TextKind => "<"
  }

  function ErrorOf(kind: Kind): Error {
    match kind
    case DeclarationKind => PARSING_DECLARATION
    case CommentKind => PARSING_COMMENT
    case CDataKind => PARSING_CDATA
    case UnknownKind => PARSING_UNKNOWN
    case ElementKind => PARSING_ELEMENT
    case TextKind => PARSING_TEXT
  }

  lemma {:induction false} NeverFound(v: string, i: nat, tag: string)
    requires tag != [] && i <= |v| && !Contains(v, tag)
    ensures FindTag(v, i, tag) == None
    decreases |v| - i
  {
    if i < |v| {
      NeverFound(v, i + 1, tag);
    }
  }

  /** A comment, a declaration, an unknown or CDATA without its end is an error of its own. */
  lemma NodeMustEnd(lead: string, kind: Kind, value: string)
    requires Blank(lead) && kind != ElementKind && kind != TextKind && !Contains(value, EndOf(kind))
    requires kind == UnknownKind ==> var q := "<!" + value; !("<!--" <= q) && !("<![CDATA[" <= q)
    ensures ParseChildren(lead + (Header(kind) + value)) == Children([], Failed(ErrorOf(kind)))
  {
    hide Identify, Contains, Blank;
    HeaderIdentified(lead, kind, value);
    NeverFound(value, 0, EndOf(kind));
  }

  /** So is a text that no tag follows. */
  lemma TextMustEnd(value: string)
    requires !Blank(value) && '<' !in value
    ensures ParseChildren(value) == Children([], Failed(PARSING_TEXT))
  {
    NotBlankText(value);
    assert !Contains(value, "<") by {
      forall i | 0 <= i <= |value| ensures !("<" <= value[i..]) {
        if i < |value| {
          assert value[i..][0] == value[i] && value[i] in value;
        }
      }
    }
    NeverFound(value, 0, "<");
  }

  lemma {:induction false} NotBlankText(value: string)
    requires !Blank(value) && '<' !in value
    ensures var q := SkipWhiteSpace(value); q != [] && q[0] != '<'
  {
    if value != [] && IsWhiteSpace(value[0]) {
      assert !Blank(value[1..]) by {
        var i :| 0 <= i < |value| && !IsWhiteSpace(value[i]);
        assert value[1..][i - 1] == value[i];
      }
      NotBlankText(value[1..]);
    } else if value == [] {
      assert Blank(value);
    }
  }

  // ---------------------------------------------------------------- documents

  /** White space, with or without a byte order mark, is an empty document, and that is an error. */
  lemma NothingToRead(lead: string, bom: bool)
    requires Blank(lead)
    ensures ParseDocument(lead + (if bom then BOM else "")) == Document([], EMPTY_DOCUMENT, bom)
  {
    hide ParseChildren, SkipWhiteSpace, UpToNul, Blank;
    var mark := if bom then BOM else "";
    DocumentStarts(lead, bom, "");
    assert mark + "" == mark && BOM[3..] == [];
  }

  /** What follows white space and a byte order mark is read, and an error on the way is the document's. */
  lemma DocumentRead(lead: string, bom: bool, body: string)
    requires Blank(lead) && NUL !in body && body != ""
    requires !bom ==> !IsWhiteSpace(body[0]) && !(BOM <= body)
    ensures var children := ParseChildren(body);
            ParseDocument(lead + ((if bom then BOM else "") + body))
            == Document(children.nodes, if children.end.Failed? then children.end.error else NO_ERROR, bom)
  {
    hide ParseChildren, SkipWhiteSpace, UpToNul, Blank;
    var p := (if bom then BOM else "") + body;
    DocumentStarts(lead, bom, body);
    assert (if bom then p[3..] else p) == body;
    assert |lead + p| > 0;
  }

  lemma DocumentStarts(lead: string, bom: bool, body: string)
    requires Blank(lead) && NUL !in body
    requires !bom && body != "" ==> !IsWhiteSpace(body[0]) && !(BOM <= body)
    ensures var p := (if bom then BOM else "") + body;
            UpToNul(lead + p) == lead + p && SkipWhiteSpace(lead + p) == p && (BOM <= p <==> bom)
  {
    hide UpToNul, SkipWhiteSpace;
    var p := (if bom then BOM else "") + body;
    assert NUL !in p by {
      assert NUL !in BOM by { assert BOM[0] != NUL && BOM[1] != NUL && BOM[2] != NUL; }
    }
    assert NUL !in lead + p;
    UpToNulWhole(lead + p);
    BlankSkipped(lead, p);
  }

  // ---------------------------------------------------------------- values

  /** In attribute values and plain texts references are read; in CDATA, comments and the rest only line ends are. */
  lemma ValuesMean(ps: seq<XmlMeaning.Piece>, entities: bool)
    requires XmlMeaning.WellWritten(ps, entities, true)
    ensures var text, meaning := XmlMeaning.Text(ps), XmlMeaning.Meaning(ps);
            if entities then
              && Resolve(Text(text, false)) == Some(Text(meaning, false))
              && forall name, attrs, more :: ResolveAttrs(attrs) == Some(more) ==>
                   ResolveAttrs([Attr(name, text)] + attrs) == Some([Attr(name, meaning)] + more)
            else
              && Resolve(Text(text, true)) == Some(Text(meaning, true))
              && Resolve(Comment(text)) == Some(Comment(meaning))
              && Resolve(Declaration(text)) == Some(Declaration(meaning))
              && Resolve(Unknown(text)) == Some(Unknown(meaning))
  {
    hide XmlMeaning.Text, XmlMeaning.Meaning, XmlMeaning.WellWritten, Scan;
    XmlMeaning.TextMeans(ps, entities, true);
    var text, meaning := XmlMeaning.Text(ps), XmlMeaning.Meaning(ps);
    if entities {
      forall name, attrs, more | ResolveAttrs(attrs) == Some(more)
        ensures ResolveAttrs([Attr(name, text)] + attrs) == Some([Attr(name, meaning)] + more)
      {
        assert ([Attr(name, text)] + attrs)[1..] == attrs;
      }
    }
  }
}
