/**
 What character data means, without the reader: a text is made of characters, named and numeric references, and line
 ends in any of the four ways to write them.
 */
module XmlMeaning {
  import opened Wrappers
  import opened XmlText
  import opened Digits

  datatype Name = Quot | Amp | Apos | Lt | Gt

  /** A numeric reference has its digits' values, from the left, and their spelling. */
  datatype Piece =
    | Plain(c: char)
    | Named(name: Name)
    | Number(digits: seq<nat>, spelling: string, hex: bool)
    | LineEnd(text: string)

  function NameText(n: Name): string {
    match n case Quot => "&quot;" case Amp => "&amp;" case Apos => "&apos;" case Lt => "&lt;" case Gt => "&gt;"
  }

  function NameMeans(n: Name): char {
    match n case Quot => '"' case Amp => '&' case Apos => '\'' case Lt => '<' case Gt => '>'
  }

  // ---------------------------------------------------------------- texts

  /**
   What can be written so, where references and line ends are to be read as such. Numbers are below 2^32; those of 2^21
   and more mean nothing.
   */
  predicate Sound(p: Piece, entities: bool, newlines: bool) {
    match p
    case Plain(c) => (entities ==> c != '&') && (newlines ==> c != CR && c != LF)
    case Named(_) => entities
    case Number(digits, spelling, hex) =>
      entities && SpellsAll(spelling, digits, hex) && Positional(digits, hex) < TWO_TO_THE_32
    case LineEnd(text) => newlines && OneLineEnd(text)
  }

  predicate OneLineEnd(text: string) {
    text == "\r\n" || text == "\n\r" || text == "\r" || text == "\n"
  }

  function TextOf(p: Piece): (s: string)
    ensures p.LineEnd? || s != ""
  {
    match p
    case Plain(c) => [c]
    case Named(n) => NameText(n)
    case Number(_, spelling, hex) => (if hex then "&#x" else "&#") + spelling + ";"
    case LineEnd(text) => text
  }

  function MeaningOf(p: Piece): string {
    match p
    case Plain(c) => [c]
    case Named(n) => [NameMeans(n)]
    case Number(digits, _, hex) => Chars(Utf8(Positional(digits, hex)))
    case LineEnd(_) => "\n"
  }

  function Text(ps: seq<Piece>): string {
    if ps == [] then "" else TextOf(ps[0]) + Text(ps[1..])
  }

  function Meaning(ps: seq<Piece>): string {
    if ps == [] then "" else MeaningOf(ps[0]) + Meaning(ps[1..])
  }

  /** A lone CR or LF is not taken together with what follows it. */
  predicate Apart(p: Piece, rest: string) {
    p.LineEnd? && |p.text| == 1 ==> rest == "" || rest[0] != (if p.text == "\r" then LF else CR)
  }

  predicate WellWritten(ps: seq<Piece>, entities: bool, newlines: bool) {
    ps != [] ==>
      Sound(ps[0], entities, newlines) && Apart(ps[0], Text(ps[1..])) && WellWritten(ps[1..], entities, newlines)
  }

  // ---------------------------------------------------------------- one piece

  lemma DigitRead(c: char, d: nat, hex: bool)
    requires Spells(c, d, hex)
    ensures (if hex then HexDigit(c) else DecDigit(c)) == Some(d)
    ensures c != ';' && c != (if hex then 'x' else '#') && (!hex ==> c != 'x')
  {
    DigitCode(c, d, hex);
  }

  /** The sum from the right, with its cuts, comes to the number, scaled. */
  lemma {:induction false} SumIsNumber(p: string, marker: nat, q: nat, digits: seq<nat>, hex: bool, scale: nat)
    requires marker < q <= |p| && p[marker] == (if hex then 'x' else '#')
    requires SpellsAll(p[marker + 1..q], digits, hex) && scale * Positional(digits, hex) < TWO_TO_THE_32
    ensures DigitSum(p, q, hex, scale % TWO_TO_THE_32) == Some(scale * Positional(digits, hex))
    decreases q
  {
    hide Spells, HexDigit, DecDigit;
    if digits != [] {
      var init, d := digits[..|digits| - 1], digits[|digits| - 1];
      var b := if hex then 16 else 10;
      var spelling := p[marker + 1..q];
      assert spelling[|digits| - 1] == p[q - 1] && Spells(p[q - 1], d, hex);
      DigitRead(p[q - 1], d, hex);
      assert p[marker + 1..q - 1] == spelling[..|digits| - 1];
      Scales(scale, b, Positional(init, hex), d);
      SumIsNumber(p, marker, q - 1, init, hex, scale * b);
    }
  }

  /** One digit's share of the sum, below the cut. */
  lemma Scales(scale: nat, b: nat, high: nat, d: nat)
    requires scale * (high * b + d) < TWO_TO_THE_32
    ensures scale * b * high < TWO_TO_THE_32
    ensures scale % TWO_TO_THE_32 * b % TWO_TO_THE_32 == scale * b % TWO_TO_THE_32
    ensures scale % TWO_TO_THE_32 * d % TWO_TO_THE_32 == scale * d
    ensures scale * d + scale * b * high == scale * (high * b + d)
  {
    assert scale * (high * b + d) == scale * b * high + scale * d;
    assert scale * b * high >= 0 && scale * d >= 0;
    ModTimes(scale, b);
    if d > 0 {
      assert scale <= scale * d;
    }
  }

  lemma ModTimes(a: nat, b: nat)
    ensures a % TWO_TO_THE_32 * b % TWO_TO_THE_32 == a * b % TWO_TO_THE_32
  {
    var q, r := a / TWO_TO_THE_32, a % TWO_TO_THE_32;
    assert a * b == (TWO_TO_THE_32 * q + r) * b == TWO_TO_THE_32 * (q * b) + r * b;
    ModPlus(q * b, r * b);
  }

  lemma ModPlus(q: nat, n: nat)
    ensures (TWO_TO_THE_32 * q + n) % TWO_TO_THE_32 == n % TWO_TO_THE_32
  {
    var k, r := n / TWO_TO_THE_32, n % TWO_TO_THE_32;
    assert TWO_TO_THE_32 * q + n == TWO_TO_THE_32 * (q + k) + r;
  }

  /** A numeric reference means the character with its number, whatever follows. */
  lemma ReferenceMeans(digits: seq<nat>, spelling: string, hex: bool, rest: string)
    requires SpellsAll(spelling, digits, hex) && Positional(digits, hex) < TWO_TO_THE_32
    ensures var p := (if hex then "&#x" else "&#") + spelling + ";" + rest;
            "&#" <= p
            && CharacterRef(p) == Some((Chars(Utf8(Positional(digits, hex))), |spelling| + if hex then 4 else 3))
  {
    hide Utf8, Chars, DigitSum, Spells, Positional;
    var p, start := (if hex then "&#x" else "&#") + spelling + ";" + rest, if hex then 3 else 2;
    var semicolon := start + |spelling|;
    ReferenceShape(spelling, hex, rest);
    forall k | start <= k < semicolon ensures p[k] != ';' && (!hex ==> p[k] != 'x') {
      assert Spells(spelling[k - start], digits[k - start], hex);
      DigitRead(p[k], digits[k - start], hex);
    }
    FirstSemicolon(p, start, semicolon);
    SumIsNumber(p, start - 1, semicolon, digits, hex, 1);
  }

  lemma ReferenceShape(spelling: string, hex: bool, rest: string)
    ensures var p, start := (if hex then "&#x" else "&#") + spelling + ";" + rest, if hex then 3 else 2;
            && "&#" <= p && |p| == start + |spelling| + 1 + |rest| && p[start..start + |spelling|] == spelling
            && p[start - 1] == (if hex then 'x' else '#') && p[start + |spelling|] == ';'
            && (forall i :: 0 <= i < |spelling| ==> p[start + i] == spelling[i])
            && p[start + |spelling| + 1..] == rest
  {
  }

  lemma {:induction false} FirstSemicolon(p: string, i: nat, k: nat)
    requires i <= k < |p| && p[k] == ';' && forall j :: i <= j < k ==> p[j] != ';'
    ensures IndexOf(p, i, ';') == Some(k)
  {
  }

  lemma NamedRead(n: Name, rest: string, newlines: bool)
    ensures NextToken(NameText(n) + rest, true, newlines) == Some(Token([NameMeans(n)], |NameText(n)|, false))
  {
    var p := NameText(n) + rest;
    match n
    case Quot => assert p[0] == '&' && p[1] == 'q';
    case Amp => assert p[0] == '&' && p[1] == 'a' && p[2] == 'm';
    case Apos => assert p[0] == '&' && p[1] == 'a' && p[2] == 'p';
    case Lt => assert p[0] == '&' && p[1] == 'l';
    case Gt => assert p[0] == '&' && p[1] == 'g';
  }

  lemma NumberRead(digits: seq<nat>, spelling: string, hex: bool, rest: string, newlines: bool)
    requires Sound(Number(digits, spelling, hex), true, newlines)
    ensures var n := Number(digits, spelling, hex);
            NextToken(TextOf(n) + rest, true, newlines) == Some(Token(MeaningOf(n), |TextOf(n)|, false))
  {
    hide Utf8, Chars, CharacterRef, Positional, Spells;
    ReferenceMeans(digits, spelling, hex, rest);
    ReferenceShape(spelling, hex, rest);
    var p := (if hex then "&#x" else "&#") + spelling + ";" + rest;
    assert TextOf(Number(digits, spelling, hex)) + rest == p;
    assert p[0] == '&' && p[1] == '#';
  }

  lemma LineEndRead(text: string, rest: string, entities: bool)
    requires OneLineEnd(text) && Apart(LineEnd(text), rest)
    ensures NextToken(text + rest, entities, true) == Some(Token("\n", |text|, false))
  {
    var p := text + rest;
    assert p[0] == text[0];
    assert |text| == 2 ==> p[1] == text[1];
    assert |text| == 1 && rest != "" ==> p[1] == rest[0];
  }

  lemma PieceRead(p: Piece, rest: string, entities: bool, newlines: bool)
    requires Sound(p, entities, newlines) && Apart(p, rest)
    ensures NextToken(TextOf(p) + rest, entities, newlines) == Some(Token(MeaningOf(p), |TextOf(p)|, false))
  {
    match p
    case Plain(c) =>
    case Named(n) => NamedRead(n, rest, newlines);
    case Number(digits, spelling, hex) => NumberRead(digits, spelling, hex, rest, newlines);
    case LineEnd(text) => LineEndRead(text, rest, entities);
  }

  // ---------------------------------------------------------------- whole texts

  /** The pass in place writes what the text means, from any point of it on. */
  lemma {:induction false} ScanMeans(raw: string, p: nat, out: string, ps: seq<Piece>, entities: bool, newlines: bool)
    requires |out| <= p <= |raw| && raw[p..] == Text(ps) && WellWritten(ps, entities, newlines)
    ensures Scan(raw, p, out, entities, newlines) == Some(out + Meaning(ps))
    decreases |ps|
  {
    hide NextToken, TextOf, MeaningOf, Sound, Apart;
    if ps == [] {
      assert out + "" == out;
    } else {
      var text, rest := TextOf(ps[0]), Text(ps[1..]);
      PieceRead(ps[0], rest, entities, newlines);
      assert raw[p + |text|..] == raw[p..][|text|..] == rest;
      ScanMeans(raw, p + |text|, out + MeaningOf(ps[0]), ps[1..], entities, newlines);
      Join3(out, MeaningOf(ps[0]), Meaning(ps[1..]));
    }
  }

  /** So it does for the whole of a text. */
  lemma TextMeans(ps: seq<Piece>, entities: bool, newlines: bool)
    requires WellWritten(ps, entities, newlines)
    ensures Scan(Text(ps), 0, [], entities, newlines) == Some(Meaning(ps))
  {
    assert Text(ps)[0..] == Text(ps) && [] + Meaning(ps) == Meaning(ps);
    ScanMeans(Text(ps), 0, [], ps, entities, newlines);
  }
}
