/**
 Reading a value in place: the unescaped text overwrites the escaped text it is made from.
 */
module XmlStrings {
  import opened Wrappers
  import opened XmlText
  import XmlMeaning

  /**
   The buffer between `start` and `end` when `out` has been written and `p` chars of `raw` read: the rest is still as
   it was.
   */
  ghost predicate HalfDone(buffer: seq<char>, start: nat, end: nat, raw: string, p: nat, out: string) {
    && start <= end < |buffer| && |raw| == end - start && |out| <= p <= |raw|
    && buffer[start..start + |out|] == out
    && buffer[start + |out|..end] == raw[|out|..]
    && buffer[end] == NUL
  }

  lemma Unread(buffer: seq<char>, start: nat, end: nat, raw: string, p: nat, out: string)
    requires HalfDone(buffer, start, end, raw, p, out)
    ensures buffer[start + p..end] == raw[p..]
    ensures p < |raw| ==> buffer[start + p] == raw[p] && buffer[start + p + 1] == At(raw[p..], 1)
    ensures |out| < |raw| ==> buffer[start + |out|] == raw[|out|]
  {
    assert buffer[start + |out|..end][p - |out|..] == buffer[start + p..end];
    assert raw[|out|..][p - |out|..] == raw[p..];
    if p < |raw| {
      assert buffer[start + p..end][0] == buffer[start + p];
      assert p + 1 < |raw| ==> buffer[start + p..end][1] == buffer[start + p + 1];
    }
    assert |out| < |raw| ==> buffer[start + |out|..end][0] == buffer[start + |out|];
  }

  lemma Written(before: seq<char>, after: seq<char>, start: nat, end: nat, raw: string, p: nat, out: string,
                text: string, length: nat)
    requires HalfDone(before, start, end, raw, p, out)
    requires |text| <= length && p + length <= |raw| && |after| == |before|
    requires Overwritten(before, after, start + |out|, text)
    ensures HalfDone(after, start, end, raw, p + length, out + text)
  {
    var q := start + |out|;
    assert after[start..q] == before[start..q];
    assert after[start..q + |text|] == after[start..q] + after[q..q + |text|];
    assert before[q..end][|text|..] == before[q + |text|..end];
    assert raw[|out|..][|text|..] == raw[|out + text|..];
    assert after[q + |text|..end] == before[q + |text|..end];
  }

  ghost predicate Overwritten(before: seq<char>, after: seq<char>, q: nat, text: string) {
    && |after| == |before| && q + |text| <= |after|
    && after[q..q + |text|] == text
    && (forall i :: 0 <= i < q ==> after[i] == before[i])
    && (forall i :: q + |text| <= i < |after| ==> after[i] == before[i])
  }

  /** Copies a few chars to position `q`. */
  method Put(buffer: array<char>, q: nat, text: string)
    requires q + |text| <= buffer.Length
    modifies buffer
    ensures Overwritten(old(buffer[..]), buffer[..], q, text)
  {
    for i := 0 to |text|
      invariant Overwritten(old(buffer[..]), buffer[..], q, text[..i])
    {
      buffer[q + i] := text[i];
      assert buffer[..][q..q + i + 1] == text[..i] + [text[i]] == text[..i + 1];
    }
    assert text[..|text|] == text;
  }

  lemma Outside(before: seq<char>, after: seq<char>, start: nat, end: nat, q: nat, text: string)
    requires Overwritten(before, after, q, text) && start <= q && q + |text| <= end < |before|
    ensures after[..start] == before[..start] && after[end + 1..] == before[end + 1..]
  {
  }

  /** Writes what a token stands for; for a stray ampersand nothing, so the char under the write pointer stays. */
  method WriteToken(buffer: array<char>, start: nat, end: nat, p: nat, q: nat, token: Token, ghost raw: string,
                    ghost out: string)
    requires start <= q <= p < end < buffer.Length && q - start == |out|
    requires HalfDone(buffer[..], start, end, raw, p - start, out)
    requires |token.text| <= token.length && p + token.length <= end && (token.stray ==> |token.text| == 1)
    requires |out| < |raw|
    modifies buffer
    ensures HalfDone(buffer[..], start, end, raw, p + token.length - start,
                     out + if token.stray then [raw[|out|]] else token.text)
    ensures buffer[..start] == old(buffer[..start]) && buffer[end + 1..] == old(buffer[end + 1..])
  {
    ghost var before := buffer[..];
    ghost var shown := if token.stray then [raw[|out|]] else token.text;
    Unread(before, start, end, raw, p - start, out);
    Lengths(before, start, end, raw, p - start, out);
    hide HalfDone;
    if !token.stray {
      Put(buffer, q, token.text);
    }
    Written(before, buffer[..], start, end, raw, p - start, out, shown, token.length);
    Outside(before, buffer[..], start, end, q, shown);
    assert before[..start] == old(buffer[..start]) && before[end + 1..] == old(buffer[end + 1..]);
  }

  /** Reads one token at `p` and writes what it stands for at `q`. */
  method Advance(buffer: array<char>, start: nat, end: nat, p: nat, q: nat, entities: bool, newlines: bool,
                 ghost raw: string, ghost out: string)
    returns (p': nat, q': nat, isNull: bool, ghost out': string)
    requires start <= q <= p < end < buffer.Length && q - start == |out|
    requires HalfDone(buffer[..], start, end, raw, p - start, out)
    modifies buffer
    ensures isNull ==> Scan(raw, p - start, out, entities, newlines) == None
    ensures !isNull ==>
              && p < p' <= end && start <= q' <= p' && q' - start == |out'|
              && HalfDone(buffer[..], start, end, raw, p' - start, out')
              && Scan(raw, p - start, out, entities, newlines) == Scan(raw, p' - start, out', entities, newlines)
    ensures buffer[..start] == old(buffer[..start]) && buffer[end + 1..] == old(buffer[end + 1..])
  {
    hide HalfDone, Scan, NextToken;
    ghost var before := buffer[..];
    p', q', isNull, out' := p, q, true, out;
    Unread(before, start, end, raw, p - start, out);
    assert before[p..end] == buffer[p..end];
    Lengths(before, start, end, raw, p - start, out);
    var token := Read(buffer, p, end, entities, newlines);
    ScanStep(raw, p - start, out, token, entities, newlines);
    if token.None? {
      return;
    }
    var Token(text, length, stray) := token.value;
    WriteToken(buffer, start, end, p, q, token.value, raw, out);
    p', q', isNull, out' := p + length, q + |text|, false, out + if stray then [raw[|out|]] else text;
  }

  lemma Lengths(buffer: seq<char>, start: nat, end: nat, raw: string, p: nat, out: string)
    requires HalfDone(buffer, start, end, raw, p, out)
    ensures |raw| == end - start && |out| <= p <= |raw| && buffer[end] == NUL
  {
  }

  /** The buffer holds `text`, and then NUL, from `start` on. */
  predicate Shows(buffer: seq<char>, start: nat, end: nat, text: string)
    requires start <= end < |buffer|
  {
    start + |text| <= end && buffer[start..start + |text|] == text && buffer[start + |text|] == NUL
  }

  /**
   Terminates and unescapes the text between `start` and `end`. The result, followed by NUL, starts at `start`; nothing
   outside is touched. `isNull` reports that a malformed numeric reference made the read pointer null.
   */
  method GetStr(buffer: array<char>, start: nat, end: nat, entities: bool, newlines: bool) returns (isNull: bool)
    requires start <= end < buffer.Length
    modifies buffer
    ensures isNull <==> Scan(old(buffer[start..end]), 0, [], entities, newlines).None?
    ensures !isNull ==>
              var v := Scan(old(buffer[start..end]), 0, [], entities, newlines).value;
              Shows(buffer[..], start, end, v)
    ensures forall ps ::
              XmlMeaning.WellWritten(ps, entities, newlines) && XmlMeaning.Text(ps) == old(buffer[start..end]) ==>
              !isNull && Shows(buffer[..], start, end, XmlMeaning.Meaning(ps))
    ensures buffer[..start] == old(buffer[..start]) && buffer[end + 1..] == old(buffer[end + 1..])
  {
    hide HalfDone, Scan, NextToken;
    ghost var raw := buffer[start..end];
    ghost var out: string := [];
    ScanOfPieces(raw, entities, newlines);
    buffer[end] := NUL;
    var p, q := start, start;
    Begun(buffer[..], start, end, raw);
    isNull := false;
    while p < end
      invariant start <= q <= p <= end && q - start == |out|
      invariant HalfDone(buffer[..], start, end, raw, p - start, out)
      invariant Scan(raw, p - start, out, entities, newlines) == Scan(raw, 0, [], entities, newlines)
      invariant buffer[..start] == old(buffer[..start]) && buffer[end + 1..] == old(buffer[end + 1..])
      decreases end - p
    {
      p, q, isNull, out := Advance(buffer, start, end, p, q, entities, newlines, raw, out);
      if isNull {
        return;
      }
    }
    Finished(buffer[..], start, end, raw, p - start, out, entities, newlines);
    buffer[q] := NUL;
    isNull := false;
  }

  lemma ScanOfPieces(raw: string, entities: bool, newlines: bool)
    ensures forall ps :: XmlMeaning.WellWritten(ps, entities, newlines) && XmlMeaning.Text(ps) == raw ==>
              Scan(raw, 0, [], entities, newlines) == Some(XmlMeaning.Meaning(ps))
  {
    hide XmlMeaning.WellWritten, XmlMeaning.Text, XmlMeaning.Meaning, Scan;
    forall ps | XmlMeaning.WellWritten(ps, entities, newlines) && XmlMeaning.Text(ps) == raw
      ensures Scan(raw, 0, [], entities, newlines) == Some(XmlMeaning.Meaning(ps))
    {
      XmlMeaning.TextMeans(ps, entities, newlines);
    }
  }

  lemma Begun(buffer: seq<char>, start: nat, end: nat, raw: string)
    requires start <= end < |buffer| && buffer[start..end] == raw && buffer[end] == NUL
    ensures HalfDone(buffer, start, end, raw, 0, [])
  {
  }

  lemma Finished(buffer: seq<char>, start: nat, end: nat, raw: string, p: nat, out: string, entities: bool,
                 newlines: bool)
    requires HalfDone(buffer, start, end, raw, p, out) && p == |raw|
    ensures Scan(raw, p, out, entities, newlines) == Some(out) && buffer[start..start + |out|] == out
  {
  }

  lemma ScanStep(raw: string, p: nat, out: string, token: Option<Token>, entities: bool, newlines: bool)
    requires |out| <= p < |raw| && token == NextToken(raw[p..], entities, newlines)
    ensures token.None? ==> Scan(raw, p, out, entities, newlines) == None
    ensures token.Some? ==> var t := token.value;
              && 1 <= t.length <= |raw| - p && |t.text| <= t.length && (t.stray ==> |t.text| == 1)
              && Scan(raw, p, out, entities, newlines)
                 == Scan(raw, p + t.length, out + if t.stray then [raw[|out|]] else t.text, entities, newlines)
  {
    hide NextToken;
  }

  /** What is to be read at `p`, decided by looking at the buffer. */
  method Read(buffer: array<char>, p: nat, end: nat, entities: bool, newlines: bool) returns (r: Option<Token>)
    requires p < end < buffer.Length && buffer[end] == NUL
    ensures r == NextToken(buffer[p..end], entities, newlines)
  {
    ghost var rest := buffer[p..end];
    assert rest[0] == buffer[p] && At(rest, 1) == buffer[p + 1];
    if newlines && buffer[p] == CR {
      return Some(Token([LF], if buffer[p + 1] == LF then 2 else 1, false));
    } else if newlines && buffer[p] == LF {
      return Some(Token([LF], if buffer[p + 1] == CR then 2 else 1, false));
    } else if entities && buffer[p] == '&' {
      if buffer[p + 1] == '#' {
        match CharacterRef(buffer[p..end]) {
          case None => return None;
          case Some((bytes, length)) => return Some(Token(bytes, length, false));
        }
      } else {
        match NamedEntity(buffer[p..end]) {
          case Some((c, length)) => return Some(Token([c], length, false));
          case None => return Some(Token("&", 1, true));
        }
      }
    } else {
      return Some(Token([buffer[p]], 1, false));
    }
  }
}
