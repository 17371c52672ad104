/** UTF-8 (RFC 3629): the validator accepts exactly the encodings of sequences of
    Unicode scalar values. */
module Utf8 {

  predicate IsContinuationByte(c: char) {
    0x80 <= c as int <= 0xBF
  }

  /** How many bytes the first character of `s` takes, or 0 when `s` does not
      start with a well-formed character. */
  function HeadLength(s: string): (n: nat)
    requires s != ""
    ensures n <= |s| && n <= 4
  {
    var first := s[0] as int;
    if first <= 0x7F then 1
    else if 0xC2 <= first <= 0xDF then
      if |s| < 2 || !IsContinuationByte(s[1]) then 0 else 2
    else if 0xE0 <= first <= 0xEF then
      if |s| < 3 || !IsContinuationByte(s[2]) then 0
      else
        var second := s[1] as int;
        if first == 0xE0 then if 0xA0 <= second <= 0xBF then 3 else 0
        else if first == 0xED then if 0x80 <= second <= 0x9F then 3 else 0
        else if IsContinuationByte(s[1]) then 3 else 0
    else if 0xF0 <= first <= 0xF4 then
      if |s| < 4 || !IsContinuationByte(s[2]) || !IsContinuationByte(s[3]) then 0
      else
        var second := s[1] as int;
        if first == 0xF0 then if 0x90 <= second <= 0xBF then 4 else 0
        else if first == 0xF4 then if 0x80 <= second <= 0x8F then 4 else 0
        else if IsContinuationByte(s[1]) then 4 else 0
    else 0
  }

  /** The validator's verdict. */
  predicate Valid(s: string)
    decreases |s|
  {
    s == "" || (HeadLength(s) > 0 && Valid(s[HeadLength(s)..]))
  }

  predicate IsScalar(cp: int) {
    0 <= cp <= 0x10FFFF && !(0xD800 <= cp <= 0xDFFF)
  }

  /** What `appendUtf8` appends.  The shifts and masks of the original combine
      disjoint bits, so they are written as sums. */
  function Encode(cp: int): (s: string)
    requires 0 <= cp <= 0x10FFFF
    ensures 1 <= |s| <= 4
    ensures !IsContinuationByte(s[0])
  {
    if cp <= 0x7F then [cp as char]
    else if cp <= 0x7FF then [(0xC0 + cp / 0x40) as char, (0x80 + cp % 0x40) as char]
    else if cp <= 0xFFFF then
      [(0xE0 + cp / 0x1000) as char, (0x80 + cp / 0x40 % 0x40) as char, (0x80 + cp % 0x40) as char]
    else
      [(0xF0 + cp / 0x4_0000) as char, (0x80 + cp / 0x1000 % 0x40) as char,
       (0x80 + cp / 0x40 % 0x40) as char, (0x80 + cp % 0x40) as char]
  }

  predicate AllScalar(cps: seq<int>) {
    forall i :: 0 <= i < |cps| ==> IsScalar(cps[i])
  }

  function EncodeAll(cps: seq<int>): string
    requires AllScalar(cps)
  {
    if cps == [] then "" else Encode(cps[0]) + EncodeAll(cps[1..])
  }

  /** The character at the front, when there is one. */
  function DecodeHead(s: string): int
    requires s != "" && HeadLength(s) > 0
  {
    var b := i requires 0 <= i < |s| => s[i] as int % 0x40;
    match HeadLength(s)
    case 1 => s[0] as int
    case 2 => (s[0] as int - 0xC0) * 0x40 + b(1)
    case 3 => (s[0] as int - 0xE0) * 0x1000 + b(1) * 0x40 + b(2)
    case _ => (s[0] as int - 0xF0) * 0x4_0000 + b(1) * 0x1000 + b(2) * 0x40 + b(3)
  }

  lemma HeadOfShortEncoding(cp: int, s: string)
    requires 0 <= cp <= 0x7FF && Encode(cp) <= s
    ensures HeadLength(s) == |Encode(cp)| && DecodeHead(s) == cp
  {
    if cp <= 0x7F {
      assert s[0] as int == cp;
    } else {
      assert s[0] as int == 0xC0 + cp / 0x40 && s[1] as int == 0x80 + cp % 0x40;
    }
  }

  lemma HeadOfTripleEncoding(cp: int, s: string)
    requires IsScalar(cp) && 0x800 <= cp <= 0xFFFF && Encode(cp) <= s
    ensures HeadLength(s) == 3 && DecodeHead(s) == cp
  {
    var first, second, third := 0xE0 + cp / 0x1000, 0x80 + cp / 0x40 % 0x40, 0x80 + cp % 0x40;
    assert s[0] as int == first && s[1] as int == second && s[2] as int == third;
    assert cp / 0x1000 == cp / 0x40 / 0x40;
    assert HeadLength(s) == 3;
    assert second % 0x40 == cp / 0x40 % 0x40 && third % 0x40 == cp % 0x40;
  }

  lemma HeadOfQuadrupleEncoding(cp: int, s: string)
    requires 0x1_0000 <= cp <= 0x10_FFFF && Encode(cp) <= s
    ensures HeadLength(s) == 4 && DecodeHead(s) == cp
  {
    var q, r := cp / 0x1000, cp / 0x40;
    assert cp / 0x4_0000 == q / 0x40 && q == r / 0x40;
    var first, second := 0xF0 + q / 0x40, 0x80 + q % 0x40;
    var third, fourth := 0x80 + r % 0x40, 0x80 + cp % 0x40;
    assert s[0] as int == first && s[1] as int == second && s[2] as int == third && s[3] as int == fourth;
    assert HeadLength(s) == 4;
    assert second % 0x40 == q % 0x40 && third % 0x40 == r % 0x40 && fourth % 0x40 == cp % 0x40;
  }

  /** The validator recognizes the encoder's output for a scalar value ... */
  lemma HeadOfEncoding(cp: int, rest: string)
    requires IsScalar(cp)
    ensures HeadLength(Encode(cp) + rest) == |Encode(cp)|
    ensures DecodeHead(Encode(cp) + rest) == cp
  {
    var s := Encode(cp) + rest;
    if cp <= 0x7FF {
      HeadOfShortEncoding(cp, s);
    } else if cp <= 0xFFFF {
      HeadOfTripleEncoding(cp, s);
    } else {
      HeadOfQuadrupleEncoding(cp, s);
    }
    hide HeadLength, DecodeHead;
  }

  /** A two-, three- or four-byte value in base 64. */
  lemma Base64(first: int, a: int, b: int, c: int)
    requires 0 <= first && 0 <= a < 0x40 && 0 <= b < 0x40 && 0 <= c < 0x40
    ensures var cp := first * 0x40 + a; cp / 0x40 == first && cp % 0x40 == a
    ensures var cp := first * 0x1000 + a * 0x40 + b;
            cp / 0x1000 == first && cp / 0x40 % 0x40 == a && cp % 0x40 == b
    ensures var cp := first * 0x4_0000 + a * 0x1000 + b * 0x40 + c;
            cp / 0x4_0000 == first && cp / 0x1000 % 0x40 == a && cp / 0x40 % 0x40 == b && cp % 0x40 == c
  {
    assert (first * 0x1000 + a * 0x40 + b) / 0x40 == first * 0x40 + a;
    assert (first * 0x4_0000 + a * 0x1000 + b * 0x40 + c) / 0x40 == first * 0x1000 + a * 0x40 + b;
    assert (first * 0x4_0000 + a * 0x1000 + b * 0x40 + c) / 0x1000 == first * 0x40 + a;
  }

  lemma ContinuationDigit(c: char)
    requires IsContinuationByte(c)
    ensures c as int == 0x80 + c as int % 0x40
  {
  }

  lemma HeadIsShort(s: string)
    requires s != "" && 1 <= HeadLength(s) <= 2
    ensures IsScalar(DecodeHead(s)) && Encode(DecodeHead(s)) == s[..HeadLength(s)]
  {
    if HeadLength(s) == 2 {
      ContinuationDigit(s[1]);
      Base64(s[0] as int - 0xC0, s[1] as int % 0x40, 0, 0);
    }
  }

  lemma HeadIsTriple(s: string)
    requires s != "" && HeadLength(s) == 3
    ensures IsScalar(DecodeHead(s)) && Encode(DecodeHead(s)) == s[..3]
  {
    var first, a, b := s[0] as int - 0xE0, s[1] as int % 0x40, s[2] as int % 0x40;
    ContinuationDigit(s[1]);
    ContinuationDigit(s[2]);
    Base64(first, a, b, 0);
    var cp := DecodeHead(s);
    assert cp == first * 0x1000 + a * 0x40 + b;
    assert s[0] as int == 0xE0 + first && s[1] as int == 0x80 + a && s[2] as int == 0x80 + b;
    assert first == 0 ==> a >= 0x20;
    assert first == 0xD ==> a < 0x20;
    assert 0x800 <= cp <= 0xFFFF && IsScalar(cp);
    hide HeadLength, DecodeHead;
  }

  lemma HeadIsQuadruple(s: string)
    requires s != "" && HeadLength(s) == 4
    ensures IsScalar(DecodeHead(s)) && Encode(DecodeHead(s)) == s[..4]
  {
    var first, a, b, c := s[0] as int - 0xF0, s[1] as int % 0x40, s[2] as int % 0x40, s[3] as int % 0x40;
    ContinuationDigit(s[1]);
    ContinuationDigit(s[2]);
    ContinuationDigit(s[3]);
    Base64(first, a, b, c);
    var cp := DecodeHead(s);
    assert cp == first * 0x4_0000 + a * 0x1000 + b * 0x40 + c;
    assert s[0] as int == 0xF0 + first && s[1] as int == 0x80 + a && s[2] as int == 0x80 + b && s[3] as int == 0x80 + c;
    assert first == 0 ==> a >= 0x10;
    assert first == 4 ==> a < 0x10;
    assert 0x1_0000 <= cp <= 0x10_FFFF;
    hide HeadLength, DecodeHead;
  }

  /** ... and nothing else. */
  lemma HeadIsEncoding(s: string)
    requires s != "" && HeadLength(s) > 0
    ensures IsScalar(DecodeHead(s))
    ensures Encode(DecodeHead(s)) == s[..HeadLength(s)]
  {
    hide DecodeHead, Encode, IsScalar;
    if HeadLength(s) <= 2 {
      HeadIsShort(s);
    } else if HeadLength(s) == 3 {
      HeadIsTriple(s);
    } else {
      HeadIsQuadruple(s);
    }
  }

  /** Valid text is the encoding of a sequence of scalar values. */
  ghost predicate WellFormed(s: string) {
    exists cps: seq<int> :: AllScalar(cps) && s == EncodeAll(cps)
  }

  lemma {:induction false} EncodingsAreValid(cps: seq<int>)
    requires AllScalar(cps)
    ensures Valid(EncodeAll(cps))
  {
    if cps != [] {
      EncodingsAreValid(cps[1..]);
      HeadOfEncoding(cps[0], EncodeAll(cps[1..]));
      assert EncodeAll(cps)[|Encode(cps[0])|..] == EncodeAll(cps[1..]);
    }
  }

  function Decode(s: string): (cps: seq<int>)
    requires Valid(s)
    decreases |s|
  {
    if s == "" then [] else [DecodeHead(s)] + Decode(s[HeadLength(s)..])
  }

  lemma {:induction false} DecodeThenEncode(s: string)
    requires Valid(s)
    ensures AllScalar(Decode(s)) && EncodeAll(Decode(s)) == s
    decreases |s|
  {
    hide DecodeHead, HeadLength, Encode, IsScalar;
    if s != "" {
      var rest := s[HeadLength(s)..];
      DecodeThenEncode(rest);
      HeadIsEncoding(s);
      assert Decode(s)[1..] == Decode(rest);
      assert s == s[..HeadLength(s)] + rest;
    }
  }

  /** The validator accepts a byte string exactly when it is the concatenation of
      the encodings of some scalar values. */
  lemma ValidIffWellFormed(s: string)
    ensures Valid(s) <==> WellFormed(s)
  {
    if Valid(s) { DecodeThenEncode(s); }
    forall cps: seq<int> | AllScalar(cps) && s == EncodeAll(cps) ensures Valid(s) { EncodingsAreValid(cps); }
  }

  /** That sequence is unique. */
  lemma {:induction false} EncodingUnique(a: seq<int>, b: seq<int>)
    requires AllScalar(a) && AllScalar(b) && EncodeAll(a) == EncodeAll(b)
    ensures a == b
  {
    if a != [] && b != [] {
      var resta, restb := EncodeAll(a[1..]), EncodeAll(b[1..]);
      HeadOfEncoding(a[0], resta);
      HeadOfEncoding(b[0], restb);
      assert resta == EncodeAll(a)[|Encode(a[0])|..] && restb == EncodeAll(b)[|Encode(b[0])|..];
      EncodingUnique(a[1..], b[1..]);
      assert a == [a[0]] + a[1..] && b == [b[0]] + b[1..];
    }
  }

  /** Cutting valid text before a byte that starts a character gives two valid
      texts, and joining two valid texts gives a valid one. */
  lemma {:induction false} ValidConcat(a: string, b: string)
    requires b == "" || !IsContinuationByte(b[0])
    ensures Valid(a + b) <==> Valid(a) && Valid(b)
    decreases |a|
  {
    if a == "" {
      assert a + b == b;
    } else {
      HeadStopsBeforeBoundary(a, b);
      var n := HeadLength(a);
      if n > 0 {
        ValidConcat(a[n..], b);
        assert (a + b)[n..] == a[n..] + b;
      }
    }
  }

  lemma HeadStopsBeforeBoundary(a: string, b: string)
    requires a != "" && (b == "" || !IsContinuationByte(b[0]))
    ensures HeadLength(a + b) == HeadLength(a)
  {
    var s := a + b;
    assert forall i :: 0 <= i < |a| ==> s[i] == a[i];
    assert b != "" ==> s[|a|] == b[0];
  }

  /** An encoded character never completes or damages the text around it. */
  lemma ValidAroundScalar(a: string, cp: int, b: string)
    requires IsScalar(cp)
    ensures Valid(a + Encode(cp) + b) <==> Valid(a) && Valid(b)
  {
    var e := Encode(cp);
    assert a + e + b == a + (e + b);
    ValidConcat(a, e + b);
    HeadOfEncoding(cp, b);
    assert (e + b)[|e|..] == b;
  }

  /** Valid prefixes can be stripped. */
  lemma {:induction false} ValidAppend(a: string, b: string)
    requires Valid(a)
    ensures Valid(a + b) <==> Valid(b)
    decreases |a|
  {
    if a == "" {
      assert a + b == b;
    } else {
      var n := HeadLength(a);
      HeadIsEncoding(a);
      assert a + b == a[..n] + (a[n..] + b);
      HeadOfEncoding(DecodeHead(a), a[n..] + b);
      ValidAppend(a[n..], b);
      assert (a + b)[n..] == a[n..] + b;
    }
  }

  method AppendUtf8(text: string, cp: int) returns (out: string)
    requires 0 <= cp <= 0x10FFFF
    ensures out == text + Encode(cp)
  {
    out := text;
    if cp <= 0x7F {
      out := out + [cp as char];
    } else if cp <= 0x7FF {
      out := out + [(0xC0 + cp / 0x40) as char];
      out := out + [(0x80 + cp % 0x40) as char];
    } else if cp <= 0xFFFF {
      out := out + [(0xE0 + cp / 0x1000) as char];
      out := out + [(0x80 + cp / 0x40 % 0x40) as char];
      out := out + [(0x80 + cp % 0x40) as char];
    } else {
      out := out + [(0xF0 + cp / 0x4_0000) as char];
      out := out + [(0x80 + cp / 0x1000 % 0x40) as char];
      out := out + [(0x80 + cp / 0x40 % 0x40) as char];
      out := out + [(0x80 + cp % 0x40) as char];
    }
  }

  /** The validator's loop. */
  method IsValidUtf8(value: string) returns (valid: bool)
    ensures valid <==> WellFormed(value)
  {
    hide HeadLength;
    ValidIffWellFormed(value);
    var index := 0;
    assert value[0..] == value;
    while index < |value|
      invariant index <= |value|
      invariant Valid(value) <==> Valid(value[index..])
    {
      var length := HeadLength(value[index..]);
      if length == 0 { return false; }
      assert value[index..][length..] == value[index + length..];
      index := index + length;
    }
    assert value[index..] == "";
    return true;
  }
}
