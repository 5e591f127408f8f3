/**
 Numbers as digits write them.
 */
module Digits {

  const LOWER := "0123456789abcdef"
  const UPPER := "0123456789ABCDEF"

  /** A digit of value `d` is written `c`. */
  predicate Spells(c: char, d: nat, hex: bool) {
    d < (if hex then 16 else 10) && (c == LOWER[d] || c == UPPER[d])
  }

  predicate SpellsAll(spelling: string, digits: seq<nat>, hex: bool) {
    |spelling| == |digits| && forall i :: 0 <= i < |digits| ==> Spells(spelling[i], digits[i], hex)
  }

  /** The number that digits write, the first one weighing most. */
  function Positional(digits: seq<nat>, hex: bool): nat {
    if digits == [] then 0
    else Positional(digits[..|digits| - 1], hex) * (if hex then 16 else 10) + digits[|digits| - 1]
  }

  /** What the characters of digits are, as numbers. */
  lemma DigitCode(c: char, d: nat, hex: bool)
    requires Spells(c, d, hex)
    ensures if d < 10 then c as int == d + 48 else c as int == d + 87 || c as int == d + 55
  {
    if d < 10 {
      assert LOWER[d] == UPPER[d] == (d + 48) as char;
    } else {
      assert LOWER[d] == (d + 87) as char && UPPER[d] == (d + 55) as char;
    }
  }
}
