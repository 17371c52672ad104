/** The recursive-descent parser itself: a cursor that moves over the text. */
module JsonReader {
  import opened Types
  import opened Hexadecimal
  import opened JsonGrammar
  import opened JsonParse
  import opened Codec
  import Ordering
  import Utf8

  /** A method that stopped at `end` computed `spec`; after a failure the cursor
      says nothing. */
  predicate Agrees<T(==)>(r: Option<T>, end: nat, spec: Parsed<T>) {
    match spec
    case Fail => r.None?
    case Ok(value, next) => r == Some(value) && end == next
  }

  class JsonParser {
    const text: string
    const nf: NumberFormat
    var pos: nat

    constructor (nf: NumberFormat, text: string)
      ensures this.nf == nf && this.text == text && pos == 0
    {
      this.nf, this.text, pos := nf, text, 0;
    }

    method SkipSpace()
      requires pos <= |text|
      modifies this`pos
      ensures pos == JsonParse.SkipSpace(text, old(pos))
    {
      while pos < |text| && IsSpace(text[pos])
        invariant pos <= |text| && JsonParse.SkipSpace(text, pos) == JsonParse.SkipSpace(text, old(pos))
      {
        pos := pos + 1;
      }
    }

    method Take() returns (c: Option<char>)
      requires pos <= |text|
      modifies this`pos
      ensures if old(pos) < |text| then c == Some(text[old(pos)]) && pos == old(pos) + 1 else c.None? && pos == old(pos)
    {
      if pos >= |text| { return None; }
      c := Some(text[pos]);
      pos := pos + 1;
    }

    method Consume(value: string) returns (taken: bool)
      requires pos <= |text|
      modifies this`pos
      ensures taken <==> At(text, old(pos), value)
      ensures pos == if taken then old(pos) + |value| else old(pos)
    {
      if !At(text, pos, value) { return false; }
      pos := pos + |value|;
      return true;
    }

    method ParseUnicodeCodeUnit() returns (code: Option<int>)
      requires pos <= |text|
      modifies this`pos
      ensures pos <= |text| && Agrees(code, pos, ParseUnit(text, old(pos)))
    {
      var value := 0;
      ghost var p := pos;
      for i := 0 to 4
        invariant pos == p + i <= |text|
        invariant forall k :: p <= k < p + i ==> HexDigit(text[k]) >= 0
        invariant i == 1 ==> value == HexDigit(text[p])
        invariant i == 2 ==> value == HexDigit(text[p]) * 16 + HexDigit(text[p + 1])
        invariant i == 3 ==> value == (HexDigit(text[p]) * 16 + HexDigit(text[p + 1])) * 16 + HexDigit(text[p + 2])
        invariant i == 4 ==> IsHex4(text[p..p + 4]) && value == Hex4(text[p..p + 4])
        invariant i == 0 ==> value == 0
      {
        hide HexDigit;
        if pos >= |text| { return None; }
        var c := Take();
        var digit := HexDigit(c.value);
        assert p + 4 <= |text| ==> text[p..p + 4][i] == text[p + i];
        if digit < 0 { return None; }
        value := value * 16 + digit;
      }
      code := Some(value);
    }

    /** What follows a backslash in a string. */
    method ParseEscape() returns (r: Option<string>)
      requires pos <= |text|
      modifies this`pos
      ensures pos <= |text| && Agrees(r, pos, JsonParse.ParseEscape(text, old(pos)))
    {
      hide ParseUnit, Utf8.Encode;
      var c := Take();
      if c.None? { return None; }
      if Unescaped(c.value).Some? { return Some([Unescaped(c.value).value]); }
      if c.value != 'u' { return None; }
      var unit := ParseUnicodeCodeUnit();
      if unit.None? { return None; }
      var codePoint := unit.value;
      if IsHighSurrogate(codePoint) {
        var follows := Consume([BACKSLASH, 'u']);
        if !follows { return None; }
        var low := ParseUnicodeCodeUnit();
        if low.None? || !IsLowSurrogate(low.value) { return None; }
        codePoint := PairScalar(codePoint, low.value);
      } else if IsLowSurrogate(codePoint) {
        return None;
      }
      var out := Utf8.AppendUtf8("", codePoint);
      assert out == Utf8.Encode(codePoint);
      return Some(out);
    }

    method ParseString() returns (r: Option<string>)
      requires pos <= |text|
      modifies this`pos
      ensures pos <= |text| && Agrees(r, pos, JsonParse.ParseString(text, old(pos)))
    {
      hide JsonParse.ParseEscape, Utf8.Valid, Utf8.WellFormed;
      var quote := Take();
      if quote != Some(QUOTE) { return None; }
      var out := "";
      while pos < |text|
        invariant old(pos) < pos <= |text|
        invariant JsonParse.ParseString(text, old(pos)) == StringBody(text, pos, out)
      {
        var c := Take();
        if c.value == QUOTE {
          var valid := Utf8.IsValidUtf8(out);
          Utf8.ValidIffWellFormed(out);
          if !valid { return None; }
          return Some(out);
        }
        if c.value != BACKSLASH {
          if c.value < ' ' { return None; }
          out := out + [c.value];
          continue;
        }
        var escaped := ParseEscape();
        if escaped.None? { return None; }
        out := out + escaped.value;
      }
      return None;
    }

    method SkipDigits()
      requires pos <= |text|
      modifies this`pos
      ensures pos == JsonParse.SkipDigits(text, old(pos))
    {
      while pos < |text| && IsDigit(text[pos])
        invariant pos <= |text| && JsonParse.SkipDigits(text, pos) == JsonParse.SkipDigits(text, old(pos))
      {
        pos := pos + 1;
      }
    }

    method ScanWhole() returns (ok: bool)
      requires pos < |text|
      modifies this`pos
      ensures pos <= |text| && (ok <==> WholeEnd(text, old(pos)).Some?)
      ensures ok ==> WholeEnd(text, old(pos)) == Some(pos)
    {
      hide JsonParse.SkipDigits;
      if text[pos] == '-' { pos := pos + 1; }
      if pos >= |text| { return false; }
      if text[pos] == '0' {
        pos := pos + 1;
      } else {
        if text[pos] < '1' || text[pos] > '9' { return false; }
        SkipDigits();
      }
      return true;
    }

    method ScanFraction() returns (ok: bool)
      requires pos <= |text|
      modifies this`pos
      ensures pos <= |text| && (ok <==> FractionEnd(text, old(pos)).Some?)
      ensures ok ==> FractionEnd(text, old(pos)) == Some(pos)
    {
      hide JsonParse.SkipDigits;
      if pos < |text| && text[pos] == '.' {
        pos := pos + 1;
        if pos >= |text| || !IsDigit(text[pos]) { return false; }
        SkipDigits();
      }
      return true;
    }

    method ScanExponent() returns (ok: bool)
      requires pos <= |text|
      modifies this`pos
      ensures pos <= |text| && (ok <==> ExponentEnd(text, old(pos)).Some?)
      ensures ok ==> ExponentEnd(text, old(pos)) == Some(pos)
    {
      hide JsonParse.SkipDigits;
      if pos < |text| && (text[pos] == 'e' || text[pos] == 'E') {
        pos := pos + 1;
        if pos < |text| && (text[pos] == '+' || text[pos] == '-') { pos := pos + 1; }
        if pos >= |text| || !IsDigit(text[pos]) { return false; }
        SkipDigits();
      }
      return true;
    }

    method ParseNumber() returns (r: Option<Double>)
      requires pos < |text|
      modifies this`pos
      ensures pos <= |text| && Agrees(r, pos, JsonParse.ParseNumber(nf, text, old(pos)))
    {
      hide WholeEnd, FractionEnd, ExponentEnd, IsFinite;
      var start := pos;
      var ok := ScanWhole();
      if !ok { return None; }
      ok := ScanFraction();
      if !ok { return None; }
      ok := ScanExponent();
      if !ok { return None; }
      var value := nf.strtod(text[start..pos]);
      if !IsFinite(value) { return None; }
      return Some(value);
    }

    method ParseValue() returns (r: Option<Json>)
      requires pos <= |text|
      modifies this`pos
      ensures pos <= |text| && Agrees(r, pos, JsonParse.ParseValue(nf, text, old(pos)))
      decreases |text| - pos, 1
    {
      hide JsonParse.SkipSpace, JsonParse.ParseObject, JsonParse.ParseArray, JsonParse.ParseString,
           JsonParse.ParseNumber, At;
      SkipSpace();
      if pos >= |text| { return None; }
      var c := text[pos];
      ghost var q := pos;
      assert JsonParse.ParseValue(nf, text, old(pos)) == ParseToken(nf, text, q);
      hide JsonParse.ParseValue;
      if c == '{' {
        var members := ParseObject();
        if members.Some? { r := Some(Object(members.value)); } else { r := None; }
      } else if c == '[' {
        var items := ParseArray();
        if items.Some? { r := Some(Array(items.value)); } else { r := None; }
      } else if c == QUOTE {
        var s := ParseString();
        if s.Some? { r := Some(Str(s.value)); } else { r := None; }
      } else {
        r := ParseScalar();
      }
    }

    /** A literal or a number. */
    method ParseScalar() returns (r: Option<Json>)
      requires pos < |text| && text[pos] != '{' && text[pos] != '[' && text[pos] != QUOTE
      modifies this`pos
      ensures pos <= |text| && Agrees(r, pos, ParseToken(nf, text, old(pos)))
    {
      hide JsonParse.ParseObject, JsonParse.ParseArray, JsonParse.ParseString, JsonParse.ParseNumber;
      FirstOf(text, pos, "true");
      FirstOf(text, pos, "false");
      FirstOf(text, pos, "null");
      hide At;
      var c := text[pos];
      var taken := false;
      if c == 't' { taken := Consume("true"); }
      if taken { return Some(Bool(true)); }
      if c == 'f' { taken := Consume("false"); }
      if taken { return Some(Bool(false)); }
      if c == 'n' { taken := Consume("null"); }
      if taken { return Some(Null); }
      if c == '-' || IsDigit(c) {
        var n := ParseNumber();
        if n.Some? { r := Some(Num(n.value)); } else { r := None; }
      } else {
        r := None;
      }
    }

    /** A member's name and the colon after it. */
    method ParseName() returns (key: Option<string>)
      requires pos <= |text|
      modifies this`pos
      ensures pos <= |text| && Agrees(key, pos, NameAt(text, old(pos)))
    {
      hide JsonParse.SkipSpace;
      SkipSpace();
      if pos >= |text| || text[pos] != QUOTE { return None; }
      hide JsonParse.ParseString;
      key := ParseString();
      if key.None? { return None; }
      SkipSpace();
      var colon := Take();
      if colon != Some(':') { return None; }
    }

    method ParseObject() returns (r: Option<map<string, Json>>)
      requires pos < |text| && text[pos] == '{'
      modifies this`pos
      ensures pos <= |text|
      ensures Agrees(if r.Some? then Some(Object(r.value)) else None, pos, JsonParse.ParseObject(nf, text, old(pos)))
      decreases |text| - pos, 0
    {
      hide JsonParse.SkipSpace, JsonParse.ParseValue, ParseMembers, NameAt;
      var members: map<string, Json> := map[];
      var brace := Take();
      SkipSpace();
      if pos < |text| && text[pos] == '}' {
        pos := pos + 1;
        return Some(members);
      }
      ghost var spec := JsonParse.ParseObject(nf, text, old(pos));
      assert spec == ParseMembers(nf, text, pos, map[]);
      hide JsonParse.ParseObject;
      while true
        invariant old(pos) < pos <= |text| && spec == ParseMembers(nf, text, pos, members)
        decreases |text| - pos
      {
        MembersFromName(nf, text, pos, members);
        var key := ParseName();
        if key.None? { return None; }
        var value := ParseValue();
        if value.None? { return None; }
        if key.value in members { return None; }
        members := members[key.value := value.value];
        SkipSpace();
        var separator := Take();
        if separator == Some('}') { return Some(members); }
        if separator != Some(',') { return None; }
      }
    }

    method ParseArray() returns (r: Option<seq<Json>>)
      requires pos < |text| && text[pos] == '['
      modifies this`pos
      ensures pos <= |text|
      ensures Agrees(if r.Some? then Some(Array(r.value)) else None, pos, JsonParse.ParseArray(nf, text, old(pos)))
      decreases |text| - pos, 0
    {
      hide JsonParse.SkipSpace, JsonParse.ParseValue;
      var items: seq<Json> := [];
      var bracket := Take();
      SkipSpace();
      if pos < |text| && text[pos] == ']' {
        pos := pos + 1;
        return Some(items);
      }
      ghost var spec := JsonParse.ParseArray(nf, text, old(pos));
      assert spec == ParseElements(nf, text, pos, []);
      hide JsonParse.ParseArray;
      while true
        invariant old(pos) < pos <= |text| && spec == ParseElements(nf, text, pos, items)
        decreases |text| - pos
      {
        var value := ParseValue();
        if value.None? { return None; }
        items := items + [value.value];
        SkipSpace();
        var separator := Take();
        if separator == Some(']') { return Some(items); }
        if separator != Some(',') { return None; }
      }
    }

    method Parse() returns (r: Option<Json>)
      requires pos == 0
      modifies this`pos
      ensures r == ParseDocument(nf, text)
    {
      hide JsonParse.SkipSpace, JsonParse.ParseValue;
      SkipSpace();
      r := ParseValue();
      if r.Some? {
        SkipSpace();
        if pos != |text| { r := None; }
      }
    }
  }

  lemma FirstOf(text: string, p: nat, s: string)
    requires s != ""
    ensures At(text, p, s) ==> p < |text| && text[p] == s[0]
  {
    if At(text, p, s) { assert text[p..p + |s|][0] == s[0]; }
  }

  /** Reading a document: the parser, then the root, then entry by entry. */
  method DecodeCollectionJson(nf: NumberFormat, document: string) returns (result: Option<Properties>)
    ensures result == DecodeDocument(nf, document)
  {
    hide DecodeEntries, ParseDocument;
    var parser := new JsonParser(nf, document);
    var root := parser.Parse();
    if root.None? || !root.value.Object? { return None; }
    var members := root.value.members;
    var fields := Ordering.Enumerate(members.Keys);
    for i := 0 to |fields|
      invariant forall k :: 0 <= k < i ==> fields[k] in ROOT_FIELDS
    {
      if fields[i] !in ROOT_FIELDS {
        assert !(members.Keys <= ROOT_FIELDS);
        return None;
      }
    }
    assert members.Keys <= ROOT_FIELDS;
    if "schema" !in members || members["schema"] != Num(ONE) { return None; }
    if "properties" !in members || !members["properties"].Object? { return None; }
    result := DecodeMembers(members["properties"].members);
  }

}
