/**
 Text as the HTTP parser handles it: C strings searched up to a NUL, names compared without case, blanks trimmed, and
 numbers printed and scanned.
 */
module HttpText {
  import opened Wrappers

  const NUL := 0 as char
  const CRLF := "\r\n"

  /** What a C string function sees of `s`. */
  function CStr(s: string): (r: string)
    ensures r <= s
  {
    if s == "" || s[0] == NUL then "" else [s[0]] + CStr(s[1..])
  }

  lemma {:induction false} CStrWhole(s: string)
    ensures CStr(s) == s <==> NUL !in s
    ensures |CStr(s)| <= |s|
  {
    if s != "" {
      CStrWhole(s[1..]);
      assert s == [s[0]] + s[1..];
    }
  }

  /** Offset of the first `c`, or the length when there is none before a NUL. */
  function FindChar(t: string, c: char): (i: nat)
    ensures i <= |t| && (i < |t| ==> t[i] == c)
  {
    if t == "" || t[0] == c then 0
    else if t[0] == NUL then |t|
    else 1 + FindChar(t[1..], c)
  }

  /** Offset of the first line end, or the length. */
  function FindCrLf(t: string): (i: nat)
    ensures i <= |t| && (i < |t| ==> i + 2 <= |t|)
  {
    if |t| < 2 || t[0] == NUL then |t|
    else if t[0] == '\r' && t[1] == '\n' then 0
    else 1 + FindCrLf(t[1..])
  }

  /** Offset of the first empty line, that is, of the line end before it; or the length. */
  function FindBlank(t: string): (i: nat)
    ensures i <= |t| && (i < |t| ==> i + 4 <= |t|)
  {
    if |t| < 4 || t[0] == NUL then |t|
    else if t[..4] == "\r\n\r\n" then 0
    else 1 + FindBlank(t[1..])
  }

  /** Text with no NUL and no carriage return. */
  predicate Plain(s: string) {
    NUL !in s && '\r' !in s
  }

  lemma {:induction false} FindCharAfter(a: string, c: char, b: string)
    requires NUL !in a && c !in a
    ensures FindChar(a + [c] + b, c) == |a|
  {
    if a == "" {
      assert (a + [c] + b)[0] == c;
    } else {
      assert (a + [c] + b)[1..] == a[1..] + [c] + b;
      FindCharAfter(a[1..], c, b);
    }
  }

  lemma {:induction false} FindCrLfAfter(a: string, b: string)
    requires Plain(a)
    ensures FindCrLf(a + CRLF + b) == |a|
  {
    var t := a + CRLF + b;
    if a != "" {
      assert t[1..] == a[1..] + CRLF + b;
      assert t[0] == a[0];
      FindCrLfAfter(a[1..], b);
    }
  }

  /** Past a line that an empty line does not follow. */
  lemma {:induction false} FindBlankLater(a: string, b: string)
    requires Plain(a) && |b| >= 2 && b[0] != '\r' && FindBlank(b) < |b|
    ensures FindBlank(a + CRLF + b) == |a| + 2 + FindBlank(b)
  {
    var t := a + CRLF + b;
    if a == "" {
      assert t[1..][1..] == b;
      assert t[..4][2] == b[0];
      assert t[1..][..4][0] == '\n';
    } else {
      assert t[1..] == a[1..] + CRLF + b;
      assert t[..4][0] == a[0];
      FindBlankLater(a[1..], b);
    }
  }

  lemma {:induction false} FindBlankHere(a: string, b: string)
    requires Plain(a)
    ensures FindBlank(a + CRLF + (CRLF + b)) == |a|
  {
    var t := a + CRLF + (CRLF + b);
    if a == "" {
      assert t[..4] == "\r\n\r\n";
    } else {
      assert t[1..] == a[1..] + CRLF + (CRLF + b);
      assert t[..4][0] == a[0];
      FindBlankHere(a[1..], b);
    }
  }

  // ---------------------------------------------------------------- case

  function Lower(c: char): char {
    if 'A' <= c <= 'Z' then ((c as int) + 32) as char else c
  }

  function LowerAll(s: string): (r: string)
    ensures |r| == |s|
    ensures forall i :: 0 <= i < |s| ==> r[i] == Lower(s[i])
  {
    if s == "" then "" else [Lower(s[0])] + LowerAll(s[1..])
  }

  /** Whether `s` begins with `word`, which is in lower case. */
  predicate Begins(s: string, word: string) {
    |word| <= |s| && LowerAll(s[..|word|]) == word
  }

  // ---------------------------------------------------------------- trimming

  /** Drops blanks at the front, but never the last character. */
  function TrimFront(s: string): string {
    if |s| > 1 && s[0] == ' ' then TrimFront(s[1..]) else s
  }

  function TrimBack(s: string): string {
    if |s| > 1 && s[|s| - 1] == ' ' then TrimBack(s[..|s| - 1]) else s
  }

  function Trim(s: string): string {
    TrimBack(TrimFront(s))
  }

  /** Not empty, and no blank at either end. */
  predicate Solid(s: string) {
    s != "" && s[0] != ' ' && s[|s| - 1] != ' '
  }

  /** Blanks around a solid text are dropped, and nothing else. */
  lemma {:induction false} TrimSolid(before: nat, s: string, after: nat)
    requires Solid(s)
    ensures Trim(Blanks(before) + s + Blanks(after)) == s
    decreases before
  {
    var t := Blanks(before) + s + Blanks(after);
    if before == 0 {
      assert t == s + Blanks(after);
      assert TrimFront(t) == t;
      TrimBackSolid(s, after);
    } else {
      assert t[0] == ' ' && |t| > 1;
      assert t[1..] == Blanks(before - 1) + s + Blanks(after);
      TrimSolid(before - 1, s, after);
    }
  }

  function Blanks(n: nat): string {
    seq(n, _ => ' ')
  }

  lemma {:induction false} TrimBackSolid(s: string, after: nat)
    requires Solid(s)
    ensures TrimBack(s + Blanks(after)) == s
  {
    var t := s + Blanks(after);
    if after == 0 {
      assert t == s;
    } else {
      assert t[|t| - 1] == ' ' && t[..|t| - 1] == s + Blanks(after - 1);
      TrimBackSolid(s, after - 1);
    }
  }

  // ---------------------------------------------------------------- numbers

  /** Value of a digit in lower or upper case, or 16. */
  function DigitValue(c: char): (v: nat)
    ensures v <= 16
  {
    if '0' <= c <= '9' then (c as int) - ('0' as int)
    else if 'a' <= c <= 'f' then (c as int) - ('a' as int) + 10
    else if 'A' <= c <= 'F' then (c as int) - ('A' as int) + 10
    else 16
  }

  function DigitChar(v: nat): (c: char)
    requires v < 16
    ensures DigitValue(c) == v
  {
    if v < 10 then (v + ('0' as int)) as char else (v - 10 + ('a' as int)) as char
  }

  datatype Base = DECIMAL | HEX

  function Radix(b: Base): nat {
    if b == DECIMAL then 10 else 16
  }

  predicate IsDigit(c: char, b: Base) {
    DigitValue(c) < Radix(b)
  }

  /** A number printed without leading zeros. */
  function Print(n: nat, b: Base): (r: string)
    ensures |r| > 0 && forall i :: 0 <= i < |r| ==> IsDigit(r[i], b) && r[i] != '\r' && r[i] != NUL && r[i] != ' '
  {
    if n < Radix(b) then [DigitChar(n)] else Print(n / Radix(b), b) + [DigitChar(n % Radix(b))]
  }

  /** The value of a run of digits. */
  function Value(ds: string, b: Base): nat {
    if ds == "" then 0 else Value(ds[..|ds| - 1], b) * Radix(b) + DigitValue(ds[|ds| - 1])
  }

  lemma {:induction false} ValuePrint(n: nat, b: Base)
    ensures Value(Print(n, b), b) == n
  {
    if n < Radix(b) {
      assert Print(n, b)[..0] == "";
      assert Value("", b) == 0;
    } else {
      var q, r := n / Radix(b), n % Radix(b);
      ValuePrint(q, b);
      assert Print(n, b)[..|Print(n, b)| - 1] == Print(q, b);
      assert n == q * Radix(b) + r;
    }
  }

  /** How many digits `t` starts with. */
  function DigitRun(t: string, b: Base): (n: nat)
    ensures n <= |t| && forall i :: 0 <= i < n ==> IsDigit(t[i], b)
  {
    if t == "" || !IsDigit(t[0], b) then 0 else 1 + DigitRun(t[1..], b)
  }

  predicate IsSpace(c: char) {
    c == ' ' || 9 <= c as int <= 13
  }

  function SkipSpaces(t: string): string {
    if t == "" || !IsSpace(t[0]) then t else SkipSpaces(t[1..])
  }

  predicate Signed(t: string) {
    t != "" && (t[0] == '-' || t[0] == '+')
  }

  function Unsigned(t: string): string {
    if Signed(t) then t[1..] else t
  }

  /** Without a `0x` that a hexadecimal digit follows. */
  function Unprefixed(t: string): string {
    if |t| > 2 && t[0] == '0' && (t[1] == 'x' || t[1] == 'X') && IsDigit(t[2], HEX) then t[2..] else t
  }

  const LONG_MAX := 0x7FFF_FFFF_FFFF_FFFF
  const ULONG_RANGE := 0x1_0000_0000_0000_0000

  /** A number cut to a 32-bit int. */
  function ToInt(n: int): int {
    var low := n % 0x1_0000_0000;
    if low < 0x8000_0000 then low else low - 0x1_0000_0000
  }

  /** `atoi`: through a long, which saturates, to an int, which is cut; 0 without digits. */
  function Atoi(t: string): int {
    var u := SkipSpaces(t);
    var ds := Unsigned(u);
    var v: int := Value(ds[..DigitRun(ds, DECIMAL)], DECIMAL);
    var neg := u != "" && u[0] == '-';
    ToInt(if neg then (if v > LONG_MAX + 1 then -LONG_MAX - 1 else -v) else if v > LONG_MAX then LONG_MAX else v)
  }

  /**
   `sscanf` with a hexadecimal conversion into an int: through an unsigned long, which saturates; nothing without
   digits.
   */
  function ScanHex(t: string): Option<int> {
    var u := SkipSpaces(t);
    var ds := Unprefixed(Unsigned(u));
    var n := DigitRun(ds, HEX);
    if n == 0 then None
    else
      var v: int := Value(ds[..n], HEX);
      var neg := u != "" && u[0] == '-';
      Some(ToInt(if v >= ULONG_RANGE then ULONG_RANGE - 1 else if neg then -v else v))
  }

  lemma {:induction false} DigitRunAppend(ds: string, rest: string, b: Base)
    requires forall i :: 0 <= i < |ds| ==> IsDigit(ds[i], b)
    requires rest == "" || !IsDigit(rest[0], b)
    ensures DigitRun(ds + rest, b) == |ds|
  {
    if ds == "" {
      assert ds + rest == rest;
    } else {
      assert (ds + rest)[1..] == ds[1..] + rest;
      DigitRunAppend(ds[1..], rest, b);
    }
  }

  lemma DigitsFirst(t: string, b: Base)
    requires t != "" && IsDigit(t[0], b)
    ensures SkipSpaces(t) == t && !Signed(t)
  {
  }

  /** A printed number is scanned back, whatever follows it that is no digit. */
  lemma AtoiPrint(n: nat, rest: string)
    requires n < 0x8000_0000 && (rest == "" || !IsDigit(rest[0], DECIMAL))
    ensures Atoi(Print(n, DECIMAL) + rest) == n
  {
    hide Print, Value, SkipSpaces, DigitRun;
    var ds := Print(n, DECIMAL);
    PrintShape(n, DECIMAL);
    ValuePrint(n, DECIMAL);
    DigitsFirst(ds + rest, DECIMAL);
    DigitRunAppend(ds, rest, DECIMAL);
    assert (ds + rest)[..|ds|] == ds;
  }

  lemma PrintShape(n: nat, b: Base)
    ensures var r := Print(n, b); |r| > 0 && forall i :: 0 <= i < |r| ==> IsDigit(r[i], b)
    ensures Plain(Print(n, b)) && Solid(Print(n, b))
  {
  }

  /** The size line of a chunk means the same with the rest of the stream behind it. */
  lemma ScanHexLine(line: string, rest: string)
    requires ScanHex(line).Some?
    ensures ScanHex(line + CRLF + rest) == ScanHex(line)
  {
    hide Value, DigitRun, SkipSpaces;
    var t := line + (CRLF + rest);
    assert line + CRLF + rest == t;
    var u := SkipSpaces(line);
    SomeDigits(line);
    SkipSpacesAppend(line, CRLF + rest);
    UnsignedAppend(u, CRLF + rest);
    var v := Unsigned(u);
    UnprefixedAppend(v, CRLF + rest);
    var ds := Unprefixed(v);
    DigitRunStops(ds, CRLF + rest);
    assert (ds + (CRLF + rest))[..DigitRun(ds, HEX)] == ds[..DigitRun(ds, HEX)];
  }

  lemma SomeDigits(line: string)
    requires ScanHex(line).Some?
    ensures var u := SkipSpaces(line); u != "" && Unsigned(u) != "" && Unprefixed(Unsigned(u)) != ""
  {
  }

  lemma {:induction false} SkipSpacesAppend(t: string, rest: string)
    requires SkipSpaces(t) != ""
    ensures SkipSpaces(t + rest) == SkipSpaces(t) + rest
  {
    if IsSpace(t[0]) {
      assert (t + rest)[1..] == t[1..] + rest;
      SkipSpacesAppend(t[1..], rest);
    }
  }

  lemma UnsignedAppend(t: string, rest: string)
    requires t != ""
    ensures Unsigned(t + rest) == Unsigned(t) + rest
  {
    assert (t + rest)[1..] == t[1..] + rest;
  }

  lemma UnprefixedAppend(t: string, rest: string)
    requires t != "" && rest != "" && rest[0] == '\r'
    ensures Unprefixed(t + rest) == Unprefixed(t) + rest
  {
    if |t| >= 2 {
      assert (t + rest)[2..] == t[2..] + rest;
    }
  }

  lemma {:induction false} DigitRunStops(t: string, rest: string)
    requires rest != "" && rest[0] == '\r'
    ensures DigitRun(t + rest, HEX) == DigitRun(t, HEX)
  {
    if t == "" {
      assert t + rest == rest;
    } else if IsDigit(t[0], HEX) {
      assert (t + rest)[1..] == t[1..] + rest;
      DigitRunStops(t[1..], rest);
    }
  }

  lemma ScanHexPrint(n: nat)
    requires n < 0x8000_0000
    ensures ScanHex(Print(n, HEX)) == Some(n)
  {
    hide Print, Value, SkipSpaces, DigitRun;
    var ds := Print(n, HEX);
    PrintShape(n, HEX);
    ValuePrint(n, HEX);
    DigitsFirst(ds, HEX);
    DigitRunAppend(ds, "", HEX);
    assert ds + "" == ds;
    assert !IsDigit('x', HEX) && !IsDigit('X', HEX);
    assert Unprefixed(ds) == ds;
    assert ds[..|ds|] == ds;
  }
}
