/**
 The numbers in HTTP messages, printed and scanned: what their digits say.
 */
module HttpNumbers {
  import opened Wrappers
  import opened HttpText
  import opened Digits

  function Hex(b: Base): bool {
    b == HEX
  }

  lemma DigitRead(c: char, d: nat, b: Base)
    requires Spells(c, d, Hex(b))
    ensures IsDigit(c, b) && DigitValue(c) == d
  {
    DigitCode(c, d, Hex(b));
  }

  lemma {:induction false} ValueMeans(spelling: string, digits: seq<nat>, b: Base)
    requires SpellsAll(spelling, digits, Hex(b))
    ensures Value(spelling, b) == Positional(digits, Hex(b))
    ensures forall i :: 0 <= i < |spelling| ==> IsDigit(spelling[i], b)
  {
    hide Spells, DigitValue, IsDigit;
    if digits != [] {
      var last := |digits| - 1;
      ValueMeans(spelling[..last], digits[..last], b);
      DigitRead(spelling[last], digits[last], b);
    }
  }

  /** A number is printed with its own digits, in lower case, and without leading zeros. */
  lemma {:induction false} PrintMeans(n: nat, b: Base) returns (digits: seq<nat>)
    ensures SpellsAll(Print(n, b), digits, Hex(b)) && Positional(digits, Hex(b)) == n
    ensures forall i :: 0 <= i < |digits| ==> Print(n, b)[i] == LOWER[digits[i]]
    ensures |digits| > 0 && (|digits| > 1 ==> digits[0] != 0)
    decreases n
  {
    hide DigitChar;
    var radix := if b == HEX then 16 else 10;
    if n < radix {
      CharSpells(n, b);
      digits := [n];
      assert Positional([n][..0], Hex(b)) == 0;
    } else {
      var high := PrintMeans(n / radix, b);
      CharSpells(n % radix, b);
      digits := high + [n % radix];
      assert digits[..|digits| - 1] == high;
      QuotientPositive(n, radix, high, Hex(b));
    }
  }

  lemma QuotientPositive(n: nat, radix: nat, high: seq<nat>, hex: bool)
    requires radix > 1 && n >= radix && |high| > 0 && (|high| > 1 ==> high[0] != 0)
    requires Positional(high, hex) == n / radix
    ensures high[0] != 0 && n == n / radix * radix + n % radix
  {
    if |high| == 1 {
      assert Positional(high[..0], hex) == 0;
      assert n / radix > 0;
    }
  }

  lemma CharSpells(d: nat, b: Base)
    requires d < if b == HEX then 16 else 10
    ensures DigitChar(d) == LOWER[d] && Spells(DigitChar(d), d, Hex(b))
  {
    assert Spells(LOWER[d], d, Hex(b));
    DigitCode(LOWER[d], d, Hex(b));
    if d >= 10 {
      assert LOWER[d] == (d + 87) as char;
    }
  }

  /** A number in decimal digits, with white space and a sign before it and no digit behind it, is scanned as it is. */
  lemma AtoiMeans(spaces: string, sign: string, spelling: string, digits: seq<nat>, rest: string)
    requires forall i :: 0 <= i < |spaces| ==> IsSpace(spaces[i])
    requires sign == "" || sign == "-" || sign == "+"
    requires SpellsAll(spelling, digits, false) && |digits| > 0 && Positional(digits, false) < 0x8000_0000
    requires rest == "" || !('0' <= rest[0] <= '9')
    ensures var v: int := Positional(digits, false);
            Atoi(spaces + (sign + (spelling + rest))) == if sign == "-" then -v else v
  {
    hide Value, DigitRun, SkipSpaces, Unsigned, Spells, Atoi, IsSpace;
    var u := sign + (spelling + rest);
    ValueMeans(spelling, digits, DECIMAL);
    FirstChar(sign, spelling, rest);
    SpacesSkipped(spaces, u);
    DigitRunAppend(spelling, rest, DECIMAL);
    assert (spelling + rest)[..|spelling|] == spelling;
    AtoiOf(spaces + u, u, spelling + rest, |spelling|);
  }

  lemma FirstChar(sign: string, spelling: string, rest: string)
    requires sign == "" || sign == "-" || sign == "+"
    requires spelling != "" && IsDigit(spelling[0], DECIMAL)
    ensures var u := sign + (spelling + rest);
            && u != "" && !IsSpace(u[0]) && Unsigned(u) == spelling + rest && (u[0] == '-' <==> sign == "-")
  {
    var u := sign + (spelling + rest);
    if sign == "" {
      assert u == spelling + rest;
    } else {
      assert u[1..] == spelling + rest;
    }
  }

  lemma AtoiOf(t: string, u: string, ds: string, n: nat)
    requires SkipSpaces(t) == u && u != "" && Unsigned(u) == ds && DigitRun(ds, DECIMAL) == n
    requires Value(ds[..n], DECIMAL) < 0x8000_0000
    ensures var v: int := Value(ds[..n], DECIMAL); Atoi(t) == if u[0] == '-' then -v else v
  {
    hide Value, DigitRun, SkipSpaces, Unsigned;
  }

  lemma {:induction false} SpacesSkipped(spaces: string, u: string)
    requires (forall i :: 0 <= i < |spaces| ==> IsSpace(spaces[i])) && u != "" && !IsSpace(u[0])
    ensures SkipSpaces(spaces + u) == u
  {
    if spaces == "" {
      assert spaces + u == u;
    } else {
      assert (spaces + u)[1..] == spaces[1..] + u;
      SpacesSkipped(spaces[1..], u);
    }
  }

  /** A chunk size in hexadecimal digits of either case, with no digit or `x` behind it, is scanned as it is. */
  lemma ScanHexMeans(spelling: string, digits: seq<nat>, rest: string)
    requires SpellsAll(spelling, digits, true) && |digits| > 0 && Positional(digits, true) < 0x8000_0000
    requires rest == "" || (!IsDigit(rest[0], HEX) && rest[0] != 'x' && rest[0] != 'X')
    ensures ScanHex(spelling + rest) == Some(Positional(digits, true))
  {
    hide Value, DigitRun, SkipSpaces, Spells;
    var t := spelling + rest;
    ValueMeans(spelling, digits, HEX);
    assert t[0] == spelling[0] && IsDigit(spelling[0], HEX);
    DigitsFirst(t, HEX);
    DigitRunAppend(spelling, rest, HEX);
    assert t[..|spelling|] == spelling;
    assert |t| > 1 ==> t[1] != 'x' && t[1] != 'X' by {
      assert |spelling| > 1 ==> t[1] == spelling[1] && IsDigit(spelling[1], HEX);
      assert |spelling| == 1 && rest != "" ==> t[1] == rest[0];
    }
  }
}
