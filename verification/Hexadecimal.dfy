/** Hexadecimal digits, printed in lower case and read in either, and bytes as numbers. */
module Hexadecimal {

  function HexChar(d: int): char
    requires 0 <= d < 16
  {
    if d < 10 then ('0' as int + d) as char else ('a' as int + d - 10) as char
  }

  /** The value of a digit, or -1. */
  function HexDigit(c: char): int {
    if '0' <= c <= '9' then c as int - '0' as int
    else if 'a' <= c <= 'f' then 10 + c as int - 'a' as int
    else if 'A' <= c <= 'F' then 10 + c as int - 'A' as int
    else -1
  }

  lemma PrintedDigitReads(d: int)
    requires 0 <= d < 16
    ensures HexDigit(HexChar(d)) == d
  {
  }

  /** The next byte stands for the next number. */
  lemma NextByte(b: bv8)
    requires b as nat < 255
    ensures (b + 1) as nat == b as nat + 1
  {
  }

  /** A byte is made from the number it stands for. */
  lemma ByteAgain(b: bv8)
    ensures (b as nat) as bv8 == b
  {
  }

  /** A byte keeps the number it was made from. */
  lemma {:induction false} ByteReads(m: nat)
    requires m < 256
    ensures (m as bv8) as nat == m
  {
    if m == 0 {
      assert (0 as bv8) as nat == 0;
    } else {
      ByteReads(m - 1);
      var b := (m - 1) as bv8;
      NextByte(b);
      ByteAgain(b + 1);
    }
  }
}
