/**
 Character data of the XML reader and writer: character classes, escaping, UTF-8, and the
 unescaping that the reader does in place. A text is a sequence of non-NUL chars; bytes from 128 up
 stand for themselves.
 */
module XmlText {

  import opened Wrappers

  const LF := '\n'
  const CR := '\r'
  const NUL := '\0'

  predicate IsWhiteSpace(c: char) {
    c == ' ' || 9 as char <= c <= 13 as char
  }

  predicate IsNameStartChar(c: char) {
    c >= 128 as char || 'a' <= c <= 'z' || 'A' <= c <= 'Z' || c == ':' || c == '_'
  }

  predicate IsNameChar(c: char) {
    IsNameStartChar(c) || '0' <= c <= '9' || c == '.' || c == '-'
  }

  function SkipWhiteSpace(p: string): (r: string)
    ensures |r| <= |p|
  {
    if p != [] && IsWhiteSpace(p[0]) then SkipWhiteSpace(p[1..]) else p
  }

  // ---------------------------------------------------------------- escaping

  /** The entity a character is written as; the restricted set is used for text, the full set for attribute values. */
  function Escaped(c: char, restricted: bool): (r: string)
    ensures r != []
  {
    if c == '&' then "&amp;"
    else if c == '<' then "&lt;"
    else if c == '>' then "&gt;"
    else if c == '"' && !restricted then "&quot;"
    else if c == '\'' && !restricted then "&apos;"
    else [c]
  }

  function Escape(s: string, restricted: bool): string {
    if s == [] then [] else Escaped(s[0], restricted) + Escape(s[1..], restricted)
  }

  /** The value of the entity that a text starting with `&` begins with, and its length including `&` and `;`. */
  function NamedEntity(p: string): Option<(char, nat)> {
    if "&quot;" <= p then Some(('"', 6))
    else if "&amp;" <= p then Some(('&', 5))
    else if "&apos;" <= p then Some(('\'', 6))
    else if "&lt;" <= p then Some(('<', 4))
    else if "&gt;" <= p then Some(('>', 4))
    else None
  }

  // ---------------------------------------------------------------- UTF-8

  type Byte = n: nat | n < 256

  function Chars(bytes: seq<Byte>): (s: string)
    ensures |s| == |bytes|
  {
    seq(|bytes|, i requires 0 <= i < |bytes| => bytes[i] as char)
  }

  /** The bytes written for a code; codes from 0x200000 up yield none. */
  function Utf8(code: nat): (r: seq<Byte>)
    ensures |r| <= 4
  {
    if code < 0x80 then [code]
    else if code < 0x800 then [0xC0 + code / 0x40, 0x80 + code % 0x40]
    else if code < 0x10000 then [0xE0 + code / 0x1000, 0x80 + code / 0x40 % 0x40, 0x80 + code % 0x40]
    else if code < 0x200000 then
      [0xF0 + code / 0x40000, 0x80 + code / 0x1000 % 0x40, 0x80 + code / 0x40 % 0x40, 0x80 + code % 0x40]
    else []
  }

  /** Reads one code the way section 3 of RFC 3629 lays out its bits; None for a malformed sequence. */
  function DecodeUtf8(b: seq<Byte>): Option<nat> {
    if |b| == 1 && b[0] < 0x80 then Some(b[0])
    else if |b| < 2 || exists i :: 1 <= i < |b| && !(0x80 <= b[i] < 0xC0) then None
    else if |b| == 2 && 0xC0 <= b[0] < 0xE0 then Some(SixBits(b[0] - 0xC0, b[1]))
    else if |b| == 3 && 0xE0 <= b[0] < 0xF0 then Some(SixBits(SixBits(b[0] - 0xE0, b[1]), b[2]))
    else if |b| == 4 && 0xF0 <= b[0] < 0xF8 then Some(SixBits(SixBits(SixBits(b[0] - 0xF0, b[1]), b[2]), b[3]))
    else None
  }

  function SixBits(high: nat, continuation: nat): nat
    requires continuation >= 0x80
  {
    high * 0x40 + (continuation - 0x80)
  }

  lemma Utf8RoundTrip(code: nat)
    requires code < 0x200000
    ensures DecodeUtf8(Utf8(code)) == Some(code)
  {
    var b := Utf8(code);
    assert |b| > 1 ==> forall i :: 1 <= i < |b| ==> 0x80 <= b[i] < 0xC0;
    if 0x800 <= code < 0x10000 {
      assert code / 0x40 / 0x40 == code / 0x1000;
    } else if 0x10000 <= code {
      assert code / 0x40 / 0x40 == code / 0x1000 && code / 0x1000 / 0x40 == code / 0x40000;
    }
  }

  // ---------------------------------------------------------------- numeric references

  const TWO_TO_THE_32 := 0x1_0000_0000

  function HexDigit(c: char): Option<nat> {
    if '0' <= c <= '9' then Some(c as int - '0' as int)
    else if 'a' <= c <= 'f' then Some(c as int - 'a' as int + 10)
    else if 'A' <= c <= 'F' then Some(c as int - 'A' as int + 10)
    else None
  }

  function DecDigit(c: char): Option<nat> {
    if '0' <= c <= '9' then Some(c as int - '0' as int) else None
  }

  /**
   Sums the digits of `p[..q]` from right to left down to the nearest marker character, the multiplier and each
   product cut to 32 bits.
   */
  function DigitSum(p: string, q: nat, hex: bool, mult: nat): (r: Option<nat>)
    requires q <= |p|
  {
    if q == 0 then None
    else
      var c := p[q - 1];
      if c == (if hex then 'x' else '#') then Some(0)
      else
        match if hex then HexDigit(c) else DecDigit(c)
        case None => None
        case Some(d) =>
          match DigitSum(p, q - 1, hex, mult * (if hex then 16 else 10) % TWO_TO_THE_32)
          case None => None
          case Some(rest) => Some(mult * d % TWO_TO_THE_32 + rest)
  }

  /** Position of the first `c` at or after `i`. */
  function IndexOf(p: string, i: nat, c: char): (r: Option<nat>)
    requires i <= |p|
    ensures r.Some? ==> i <= r.value < |p| && p[r.value] == c && forall k :: i <= k < r.value ==> p[k] != c
    ensures r.None? ==> forall k :: i <= k < |p| ==> p[k] != c
    decreases |p| - i
  {
    if i == |p| then None else if p[i] == c then Some(i) else IndexOf(p, i + 1, c)
  }

  /**
   The bytes a reference starting with `&#` stands for and its length; None where the reader returns a null pointer.
   */
  function CharacterRef(p: string): (r: Option<(string, nat)>)
    requires "&#" <= p
    ensures r.Some? ==> |r.value.0| <= r.value.1 && 1 <= r.value.1 <= |p|
  {
    if |p| == 2 then Some(([], 1))
    else
      var hex := p[2] == 'x';
      var digits := if hex then 3 else 2;
      match IndexOf(p, digits, ';')
      case None => None
      case Some(semicolon) =>
        match DigitSum(p, semicolon, hex, 1)
        case None => None
        case Some(code) =>
          NoDigitsNoCode(p, semicolon, hex);
          Some((Chars(Utf8(code)), semicolon + 1))
  }

  lemma NoDigitsNoCode(p: string, semicolon: nat, hex: bool)
    requires "&#" <= p && semicolon < |p| && semicolon >= 2
    ensures semicolon == 2 && !hex ==> DigitSum(p, semicolon, hex, 1) == Some(0)
  {
  }

  predicate IsDigitOf(c: char, hex: bool) {
    if hex then HexDigit(c).Some? else DecDigit(c).Some?
  }

  /** Among the characters before `q`, one that is no digit, with no marker character from it on. */
  predicate StrayDigit(p: string, q: nat, hex: bool)
    requires q <= |p|
  {
    exists k :: 0 <= k < q && !IsDigitOf(p[k], hex) && forall j :: k <= j < q ==> p[j] != (if hex then 'x' else '#')
  }

  lemma {:induction false} DigitSumFails(p: string, q: nat, hex: bool, mult: nat)
    requires q <= |p| && exists m :: 0 <= m < q && p[m] == if hex then 'x' else '#'
    ensures DigitSum(p, q, hex, mult).None? <==> StrayDigit(p, q, hex)
  {
    hide DigitSum, StrayDigit, IsDigitOf;
    DigitSumStep(p, q, hex, mult);
    if p[q - 1] != (if hex then 'x' else '#') && IsDigitOf(p[q - 1], hex) {
      DigitSumFails(p, q - 1, hex, mult * (if hex then 16 else 10) % TWO_TO_THE_32);
      StrayBefore(p, q, hex);
    } else {
      StrayHere(p, q, hex);
    }
  }

  lemma DigitSumStep(p: string, q: nat, hex: bool, mult: nat)
    requires 0 < q <= |p|
    ensures var next := mult * (if hex then 16 else 10) % TWO_TO_THE_32;
            DigitSum(p, q, hex, mult).None? <==>
              && p[q - 1] != (if hex then 'x' else '#')
              && (!IsDigitOf(p[q - 1], hex) || DigitSum(p, q - 1, hex, next).None?)
  {
    hide HexDigit, DecDigit;
    MarkerNoDigit(hex);
  }

  lemma MarkerNoDigit(hex: bool)
    ensures !IsDigitOf(if hex then 'x' else '#', hex)
  {
  }

  lemma StrayHere(p: string, q: nat, hex: bool)
    requires 0 < q <= |p| && (p[q - 1] == (if hex then 'x' else '#') || !IsDigitOf(p[q - 1], hex))
    ensures StrayDigit(p, q, hex) <==> p[q - 1] != if hex then 'x' else '#'
  {
    hide IsDigitOf;
    var marker := if hex then 'x' else '#';
    if p[q - 1] != marker {
      assert forall j :: q - 1 <= j < q ==> p[j] != marker;
    }
  }

  lemma StrayBefore(p: string, q: nat, hex: bool)
    requires 0 < q <= |p| && IsDigitOf(p[q - 1], hex) && p[q - 1] != if hex then 'x' else '#'
    ensures StrayDigit(p, q, hex) <==> StrayDigit(p, q - 1, hex)
  {
    var marker := if hex then 'x' else '#';
    if StrayDigit(p, q - 1, hex) {
      var k :| 0 <= k < q - 1 && !IsDigitOf(p[k], hex) && forall j :: k <= j < q - 1 ==> p[j] != marker;
      assert forall j :: k <= j < q ==> p[j] != marker;
    }
  }

  /**
   A numeric reference is malformed exactly if no semicolon ends it, or if something other than a digit stands between
   the semicolon and the last marker before it.
   */
  lemma MalformedReference(p: string)
    requires "&#" <= p
    ensures var hex := At(p, 2) == 'x';
            CharacterRef(p).None? <==>
              && |p| > 2
              && var semicolon := IndexOf(p, if hex then 3 else 2, ';');
                 semicolon.None? || StrayDigit(p, semicolon.value, hex)
  {
    hide DigitSum, StrayDigit, Utf8, Chars;
    if |p| > 2 {
      var hex := p[2] == 'x';
      var semicolon := IndexOf(p, if hex then 3 else 2, ';');
      if semicolon.Some? {
        assert p[if hex then 2 else 1] == if hex then 'x' else '#';
        DigitSumFails(p, semicolon.value, hex, 1);
      }
    }
  }

  // ---------------------------------------------------------------- in-place unescaping

  lemma Join3(a: string, b: string, c: string)
    ensures (a + b) + c == a + (b + c)
  {
  }

  /** Next char at `i`, NUL past the end. */
  function At(s: string, i: nat): char {
    if i < |s| then s[i] else NUL
  }

  /** CR LF, LF CR, lone CR and lone LF each count as one newline. */
  function NewlineLength(p: string): (n: nat)
    requires p != [] && (p[0] == CR || p[0] == LF)
    ensures 1 <= n <= |p|
  {
    if At(p, 1) == (if p[0] == CR then LF else CR) then 2 else 1
  }

  /** What the pass reads at once, and what it stands for; a stray is an ampersand that starts no known reference. */
  datatype Token = Token(text: string, length: nat, stray: bool)

  /** None stands for following a null pointer. */
  function NextToken(p: string, entities: bool, newlines: bool): (r: Option<Token>)
    requires p != []
    ensures r.Some? ==> 1 <= r.value.length <= |p| && |r.value.text| <= r.value.length
    ensures r.Some? && r.value.stray ==> r.value.text == "&" && r.value.length == 1
  {
    if newlines && (p[0] == CR || p[0] == LF) then Some(Token([LF], NewlineLength(p), false))
    else if entities && p[0] == '&' then
      if At(p, 1) == '#' then
        match CharacterRef(p)
        case None => None
        case Some((bytes, length)) => Some(Token(bytes, length, false))
      else
        match NamedEntity(p)
        case Some((c, length)) => Some(Token([c], length, false))
        case None => Some(Token("&", 1, true))
    else Some(Token([p[0]], 1, false))
  }

  /**
   What the in-place pass writes: `p` is the read position, `out` what lies before the write pointer. At a stray
   ampersand the pass moves the write pointer without writing, so an old character shows through.
   */
  function Scan(raw: string, p: nat, out: string, entities: bool, newlines: bool): (r: Option<string>)
    requires |out| <= p <= |raw|
    decreases |raw| - p
  {
    if p == |raw| then Some(out)
    else
      match NextToken(raw[p..], entities, newlines)
      case None => None
      case Some(t) => Scan(raw, p + t.length, out + if t.stray then [raw[|out|]] else t.text, entities, newlines)
  }

  /** The intended meaning: newlines normalised, references replaced, any other ampersand kept. */
  function Unescape(p: string, entities: bool, newlines: bool): Option<string>
    decreases |p|
  {
    if p == [] then Some([])
    else
      match NextToken(p, entities, newlines)
      case None => None
      case Some(t) => Prepend(t.text, Unescape(p[t.length..], entities, newlines))
  }

  function Prepend(s: string, r: Option<string>): Option<string> {
    match r
    case None => None
    case Some(t) => Some(s + t)
  }

  /** Every stray ampersand finds an ampersand under the write pointer. */
  ghost predicate StraysShow(raw: string, p: nat, out: string, entities: bool, newlines: bool)
    requires |out| <= p <= |raw|
    decreases |raw| - p
  {
    if p == |raw| then true
    else
      match NextToken(raw[p..], entities, newlines)
      case None => true
      case Some(t) =>
        (t.stray ==> raw[|out|] == '&') && StraysShow(raw, p + t.length, out + t.text, entities, newlines)
  }

  /** The pass keeps what it has written and never writes past the end of what it reads. */
  lemma {:induction false} ScanKeepsOutput(raw: string, p: nat, out: string, entities: bool, newlines: bool)
    requires |out| <= p <= |raw|
    ensures var r := Scan(raw, p, out, entities, newlines);
            r.Some? ==> |r.value| <= |raw| && out <= r.value
    decreases |raw| - p
  {
    hide NextToken;
    if p < |raw| && NextToken(raw[p..], entities, newlines).Some? {
      var t := NextToken(raw[p..], entities, newlines).value;
      ScanKeepsOutput(raw, p + t.length, out + if t.stray then [raw[|out|]] else t.text, entities, newlines);
    }
  }

  /** The in-place pass means what was intended exactly when every stray ampersand has one under the write pointer. */
  lemma {:induction false} ScanIsUnescape(raw: string, p: nat, out: string, entities: bool, newlines: bool)
    requires |out| <= p <= |raw|
    requires Unescape(raw[p..], entities, newlines).Some?
    ensures Scan(raw, p, out, entities, newlines) == Some(out + Unescape(raw[p..], entities, newlines).value)
        <==> StraysShow(raw, p, out, entities, newlines)
    decreases |raw| - p
  {
    hide NextToken;
    if p == |raw| {
      assert out + [] == out;
    } else {
      var t := NextToken(raw[p..], entities, newlines).value;
      var next, out' := p + t.length, out + t.text;
      UnescapeStep(raw, p, t, entities, newlines);
      var tail := Unescape(raw[next..], entities, newlines).value;
      hide Unescape;
      Join3(out, t.text, tail);
      if t.stray && raw[|out|] != '&' {
        WrongChar(raw, next, out, raw[|out|], tail, entities, newlines);
      } else {
        assert t.stray ==> [raw[|out|]] == t.text;
        ScanIsUnescape(raw, next, out', entities, newlines);
      }
    }
  }

  lemma UnescapeStep(raw: string, p: nat, t: Token, entities: bool, newlines: bool)
    requires p < |raw| && NextToken(raw[p..], entities, newlines) == Some(t)
    ensures Unescape(raw[p..], entities, newlines) == Prepend(t.text, Unescape(raw[p + t.length..], entities, newlines))
  {
    assert raw[p..][t.length..] == raw[p + t.length..];
  }

  lemma WrongChar(raw: string, p: nat, out: string, c: char, tail: string, entities: bool, newlines: bool)
    requires |out| < p <= |raw| && c != '&'
    ensures Scan(raw, p, out + [c], entities, newlines) != Some(out + ("&" + tail))
  {
    ScanKeepsOutput(raw, p, out + [c], entities, newlines);
    assert (out + [c])[|out|] == c && (out + ("&" + tail))[|out|] == '&';
  }

  /** Every ampersand starts a named entity or a numeric reference. */
  ghost predicate AllReferring(raw: string) {
    forall i :: 0 <= i < |raw| && raw[i] == '&' ==> At(raw, i + 1) == '#' || NamedEntity(raw[i..]).Some?
  }

  /** So a text in which no ampersand stands for itself is always unescaped as intended, or refused as intended. */
  lemma {:induction false} ReferencesResolve(raw: string, p: nat, out: string, entities: bool, newlines: bool)
    requires |out| <= p <= |raw| && AllReferring(raw)
    ensures Scan(raw, p, out, entities, newlines) == Prepend(out, Unescape(raw[p..], entities, newlines))
    decreases |raw| - p
  {
    hide NextToken, AllReferring;
    if p == |raw| {
      assert out + [] == out;
    } else if NextToken(raw[p..], entities, newlines).Some? {
      var t := NextToken(raw[p..], entities, newlines).value;
      NotStray(raw, p, entities, newlines);
      ReferencesResolve(raw, p + t.length, out + t.text, entities, newlines);
      UnescapeStep(raw, p, t, entities, newlines);
      var more := Unescape(raw[p + t.length..], entities, newlines);
      if more.Some? {
        Join3(out, t.text, more.value);
      }
    }
  }

  lemma NotStray(raw: string, p: nat, entities: bool, newlines: bool)
    requires p < |raw| && AllReferring(raw)
    ensures var t := NextToken(raw[p..], entities, newlines); t.Some? ==> !t.value.stray
  {
    hide CharacterRef, NewlineLength;
    assert At(raw[p..], 1) == At(raw, p + 1);
  }

  /** A stray ampersand after a shorter replacement is lost: the pass yields `<lx` where `<&x` was meant. */
  lemma StrayAmpersandLost()
    ensures Unescape("&lt;&x", true, true) == Some("<&x")
    ensures Scan("&lt;&x", 0, [], true, true) == Some("<lx")
  {
    var raw := "&lt;&x";
    assert raw[0..] == raw && raw[4..] == "&x" && raw[5..] == "x" && raw[6..] == [];
    assert NextToken(raw, true, true) == Some(Token("<", 4, false));
    assert NextToken("&x", true, true) == Some(Token("&", 1, true));
    assert NextToken("x", true, true) == Some(Token("x", 1, false));
    assert "&x"[1..] == "x" && "x"[1..] == [];
    assert Unescape([], true, true) == Some([]);
    assert "x" + [] == "x" && "&" + "x" == "&x" && "<" + "&x" == "<&x";
    assert Unescape("x", true, true) == Some("x");
    assert Unescape("&x", true, true) == Some("&x");
    assert [] + "<" == "<" && "<" + [raw[1]] == "<l" && "<l" + "x" == "<lx";
    assert Scan(raw, 6, "<lx", true, true) == Some("<lx");
    assert Scan(raw, 5, "<l", true, true) == Some("<lx");
    assert Scan(raw, 4, "<", true, true) == Some("<lx");
  }

  // ---------------------------------------------------------------- round trip

  predicate Plain(s: string) {
    forall i :: 0 <= i < |s| ==> s[i] != CR && s[i] != NUL
  }

  /** A reader's pass over escaped text gives the text back, for both entity sets. */
  lemma {:induction false} EscapeRoundTrip(s: string, restricted: bool)
    requires Plain(s)
    ensures Unescape(Escape(s, restricted), true, true) == Some(s)
  {
    if s != [] {
      var p := Escape(s, restricted);
      var rest := Escape(s[1..], restricted);
      EscapeHasNoCR(s[1..], restricted);
      EscapedIsToken(s[0], restricted, rest);
      EscapeRoundTrip(s[1..], restricted);
      TokenThenRest(p, Token([s[0]], |Escaped(s[0], restricted)|, false), rest, s[1..]);
      assert [s[0]] + s[1..] == s;
    }
  }

  lemma TokenThenRest(p: string, t: Token, rest: string, meaning: string)
    requires p != [] && NextToken(p, true, true) == Some(t) && p[t.length..] == rest
    requires Unescape(rest, true, true) == Some(meaning)
    ensures Unescape(p, true, true) == Some(t.text + meaning)
  {
  }

  lemma EscapedIsToken(c: char, restricted: bool, rest: string)
    requires c != CR && At(rest, 0) != CR
    ensures NextToken(Escaped(c, restricted) + rest, true, true) == Some(Token([c], |Escaped(c, restricted)|, false))
  {
    var p := Escaped(c, restricted) + rest;
    if c == '&' {
      assert p[..5] == "&amp;";
    }
  }

  lemma {:induction false} EscapeHasNoCR(s: string, restricted: bool)
    requires Plain(s)
    ensures CR !in Escape(s, restricted)
  {
    if s != [] {
      EscapeHasNoCR(s[1..], restricted);
    }
  }

  /** Escaped text holds no stray ampersand, so the in-place pass agrees with the intended meaning on it. */
  lemma {:induction false} EscapeHasNoStrays(s: string, restricted: bool, before: string, out: string)
    requires Plain(s) && |out| <= |before|
    ensures StraysShow(before + Escape(s, restricted), |before|, out, true, true)
    decreases |s|
  {
    hide NextToken, Escaped, Plain;
    if s == [] {
      assert before + Escape(s, restricted) == before;
    } else {
      PlainParts(s);
      var e := Escaped(s[0], restricted);
      var rest := Escape(s[1..], restricted);
      var raw := before + (e + rest);
      assert raw[|before|..] == e + rest;
      EscapeHasNoCR(s[1..], restricted);
      EscapedIsToken(s[0], restricted, rest);
      assert raw == (before + e) + rest;
      EscapeHasNoStrays(s[1..], restricted, before + e, out + [s[0]]);
    }
  }

  lemma PlainParts(s: string)
    requires Plain(s) && s != []
    ensures s[0] != CR && Plain(s[1..])
  {
  }

  /** Reading in place what the writer escaped gives the original text. */
  lemma InPlaceRoundTrip(s: string, restricted: bool)
    requires Plain(s)
    ensures Scan(Escape(s, restricted), 0, [], true, true) == Some(s)
  {
    var raw := Escape(s, restricted);
    assert raw[0..] == raw && [] + raw == raw && [] + s == s;
    EscapeRoundTrip(s, restricted);
    EscapeHasNoStrays(s, restricted, [], []);
    ScanIsUnescape(raw, 0, [], true, true);
  }
}
