/**
 The conversion of a code to UTF-8 as it is written: masks and marks put on the low six bits, byte by byte from the
 last one.
 */
module XmlBytes {
  import opened XmlText

  /** Bitwise or of unsigned words. */
  function Or(x: nat, y: nat): nat {
    if x == 0 && y == 0 then 0 else 2 * Or(x / 2, y / 2) + if x % 2 == 1 || y % 2 == 1 then 1 else 0
  }

  /** Bitwise and of unsigned words. */
  function And(x: nat, y: nat): nat
    decreases y
  {
    if y == 0 then 0 else 2 * And(x / 2, y / 2) + if x % 2 == 1 && y % 2 == 1 then 1 else 0
  }

  const BYTE_MASK := 0xBF
  const BYTE_MARK := 0x80

  function FirstByteMark(length: nat): nat {
    if length == 2 then 0xC0 else if length == 3 then 0xE0 else if length == 4 then 0xF0 else 0
  }

  lemma OrStep(x: nat, y: nat)
    ensures Or(x, y) == 2 * Or(x / 2, y / 2) + if x % 2 == 1 || y % 2 == 1 then 1 else 0
  {
    if x == 0 && y == 0 {
      assert Or(0, 0) == 0;
    }
  }

  lemma OrHalves(x: nat, y: nat)
    ensures Or(x, y) / 2 == Or(x / 2, y / 2) && (Or(x, y) % 2 == 1 <==> x % 2 == 1 || y % 2 == 1)
  {
    OrStep(x, y);
  }

  lemma AndStep(x: nat, y: nat)
    ensures And(x, y) == 2 * And(x / 2, y / 2) + if x % 2 == 1 && y % 2 == 1 then 1 else 0
  {
    if y == 0 {
      assert And(x / 2, 0) == 0;
    }
  }

  lemma {:induction false} OrNothing(x: nat)
    ensures Or(x, 0) == x
  {
    if x > 0 {
      OrNothing(x / 2);
    }
  }

  /** One bit of a masked and marked word that the mask lets through and the mark leaves alone. */
  lemma LowBit(x: nat, mark: nat, mask: nat)
    requires mark % 2 == 0 && mask % 2 == 1
    ensures And(Or(x, mark), mask) == 2 * And(Or(x / 2, mark / 2), mask / 2) + x % 2
  {
    OrHalves(x, mark);
    AndStep(Or(x, mark), mask);
  }

  /** Above the low six bits, the mark is set, the mask clears one bit, and nothing else is let through. */
  lemma MarkedTop(x: nat)
    ensures And(Or(x, 2), 2) == 2
  {
    OrHalves(x, 2);
    OrHalves(x / 2, 1);
    AndStep(Or(x, 2), 2);
    AndStep(Or(x / 2, 1), 1);
  }

  /** Marking and masking leaves the low six bits with the mark of a continuation byte. */
  lemma Continuation(x: nat)
    ensures And(Or(x, BYTE_MARK), BYTE_MASK) == 0x80 + x % 0x40
  {
    hide And, Or;
    LowBit(x, 0x80, 0xBF);
    LowBit(x / 2, 0x40, 0x5F);
    LowBit(x / 4, 0x20, 0x2F);
    LowBit(x / 8, 0x10, 0x17);
    LowBit(x / 16, 8, 0x0B);
    LowBit(x / 32, 4, 5);
    MarkedTop(x / 64);
    SixLowBits(x);
  }

  lemma SixLowBits(x: nat)
    ensures x / 2 / 2 == x / 4 && x / 4 / 2 == x / 8 && x / 8 / 2 == x / 16 && x / 16 / 2 == x / 32
    ensures x / 32 / 2 == x / 64
    ensures x % 64
         == x % 2 + 2 * (x / 2 % 2) + 4 * (x / 4 % 2) + 8 * (x / 8 % 2) + 16 * (x / 16 % 2) + 32 * (x / 32 % 2)
  {
  }

  /** A mark above all bits that are set is added. */
  lemma {:induction false} Marked(x: nat, mark: nat, unit: nat)
    requires unit in {1, 2, 4, 8, 16, 32} && x < unit && mark % unit == 0
    ensures Or(x, mark) == x + mark
    decreases unit
  {
    if unit == 1 {
      OrSwap(mark);
    } else {
      OrStep(x, mark);
      HalfUnit(mark, unit);
      Marked(x / 2, mark / 2, unit / 2);
    }
  }

  lemma HalfUnit(mark: nat, unit: nat)
    requires unit in {2, 4, 8, 16, 32} && mark % unit == 0
    ensures mark % 2 == 0 && mark / 2 % (unit / 2) == 0
  {
    var k := mark / unit;
    assert mark == k * unit;
    assert mark / 2 == k * (unit / 2);
  }

  lemma {:induction false} OrSwap(mark: nat)
    ensures Or(0, mark) == mark
  {
    if mark > 0 {
      OrSwap(mark / 2);
    }
  }

  /** The first byte: what is left of the code, below the mark that tells the length. */
  lemma FirstByte(x: nat, length: nat)
    requires (length == 1 && x < 0x80) || (length == 2 && x < 0x20)
             || (length == 3 && x < 0x10) || (length == 4 && x < 8)
    ensures Or(x, FirstByteMark(length)) == FirstByteMark(length) + x < 0x100
  {
    if length == 1 {
      OrNothing(x);
    } else {
      Marked(x, FirstByteMark(length), if length == 2 then 32 else if length == 3 then 16 else 8);
    }
  }

  /** An `unsigned long` stored in a `char`. */
  function Cut(n: nat): char {
    (n % 0x100) as char
  }

  /** Puts the last byte before `at`, and shifts it out. */
  method PutContinuation(input: nat, output: array<char>, at: nat) returns (rest: nat)
    requires 0 < at <= output.Length
    modifies output
    ensures output[..] == old(output[..])[at - 1 := (0x80 + input % 0x40) as char] && rest == input / 0x40
  {
    Continuation(input);
    output[at - 1] := Cut(And(Or(input, BYTE_MARK), BYTE_MASK));
    rest := input / 0x40;
  }

  /** Writes a code from its last byte to its first; what lies behind it stays as it was. */
  method ConvertUTF32ToUTF8(code: nat, output: array<char>) returns (length: nat)
    requires output.Length >= 4
    modifies output
    ensures length == |Utf8(code)| && output[..length] == Chars(Utf8(code))
    ensures output[length..] == old(output[length..])
  {
    length := if code < 0x80 then 1 else if code < 0x800 then 2 else if code < 0x10000 then 3
              else if code < 0x200000 then 4 else 0;
    if length == 0 {
      return;
    }
    hide And, Or, Chars, Utf8;
    var input, at := code, length;
    ghost var s0 := output[..];
    if length == 4 {
      input := PutContinuation(input, output, at);
      at := at - 1;
    }
    ghost var s1 := output[..];
    if length >= 3 {
      input := PutContinuation(input, output, at);
      at := at - 1;
    }
    ghost var s2 := output[..];
    if length >= 2 {
      input := PutContinuation(input, output, at);
      at := at - 1;
    }
    FirstByte(input, length);
    output[at - 1] := Cut(Or(input, FirstByteMark(length)));
    Written(code, length, s0, s1, s2, output[..]);
  }

  function Continued(code: nat): char {
    (0x80 + code % 0x40) as char
  }

  /** The bytes put down from the last to the first are those of the code. */
  lemma Written(code: nat, length: nat, s0: string, s1: string, s2: string, s3: string)
    requires |s0| >= 4 && code < 0x200000
    requires length == if code < 0x80 then 1 else if code < 0x800 then 2 else if code < 0x10000 then 3 else 4
    requires s1 == if length == 4 then s0[3 := Continued(code)] else s0
    requires s2 == if length >= 3 then s1[2 := Continued(if length == 4 then code / 0x40 else code)] else s1
    requires var second := if length == 2 then code else if length == 3 then code / 0x40 else code / 0x40 / 0x40;
             var first := if length == 1 then code else second / 0x40;
             var last := if length >= 2 then s2[1 := Continued(second)] else s2;
             FirstByteMark(length) + first < 0x100 && s3 == last[0 := (FirstByteMark(length) + first) as char]
    ensures length == |Utf8(code)| && s3[..length] == Chars(Utf8(code)) && s3[length..] == s0[length..]
  {
    assert code / 0x40 / 0x40 == code / 0x1000 && code / 0x1000 / 0x40 == code / 0x40000;
  }
}
