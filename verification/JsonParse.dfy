/** What the recursive-descent parser computes: for a text and a cursor, either a
    value and the cursor after it, or a failure. */
module JsonParse {
  import opened Types
  import opened JsonGrammar
  import Utf8

  datatype Parsed<+T> = Fail | Ok(value: T, next: nat)

  /** The text continues with `s` at `p`. */
  predicate At(t: string, p: nat, s: string) {
    p + |s| <= |t| && t[p..p + |s|] == s
  }

  function SkipSpace(t: string, p: nat): (q: nat)
    requires p <= |t|
    ensures p <= q <= |t| && (q < |t| ==> !IsSpace(t[q]))
    ensures AllSpace(t[p..q])
    decreases |t| - p
  {
    if p < |t| && IsSpace(t[p]) then
      var q := SkipSpace(t, p + 1);
      assert t[p..q] == [t[p]] + t[p + 1..q];
      q
    else p
  }

  function SkipDigits(t: string, p: nat): (q: nat)
    requires p <= |t|
    ensures p <= q <= |t| && (q < |t| ==> !IsDigit(t[q]))
    ensures forall i :: p <= i < q ==> IsDigit(t[i])
    decreases |t| - p
  {
    if p < |t| && IsDigit(t[p]) then SkipDigits(t, p + 1) else p
  }

  function WholeEnd(t: string, p: nat): (e: Option<nat>)
    requires p < |t|
    ensures e.Some? ==> p < e.value <= |t|
  {
    var q := if t[p] == '-' then p + 1 else p;
    if q >= |t| then None
    else if t[q] == '0' then Some(q + 1)
    else if !IsDigit(t[q]) then None
    else Some(SkipDigits(t, q))
  }

  function FractionEnd(t: string, p: nat): (e: Option<nat>)
    requires p <= |t|
    ensures e.Some? ==> p <= e.value <= |t|
  {
    if p < |t| && t[p] == '.' then
      if p + 1 >= |t| || !IsDigit(t[p + 1]) then None else Some(SkipDigits(t, p + 1))
    else Some(p)
  }

  function ExponentEnd(t: string, p: nat): (e: Option<nat>)
    requires p <= |t|
    ensures e.Some? ==> p <= e.value <= |t|
  {
    if p < |t| && (t[p] == 'e' || t[p] == 'E') then
      var q := if p + 1 < |t| && (t[p + 1] == '+' || t[p + 1] == '-') then p + 2 else p + 1;
      if q >= |t| || !IsDigit(t[q]) then None else Some(SkipDigits(t, q))
    else Some(p)
  }

  function NumberEnd(t: string, p: nat): (e: Option<nat>)
    requires p < |t|
    ensures e.Some? ==> p < e.value <= |t|
  {
    var whole := WholeEnd(t, p);
    if whole.None? then None
    else
      var fraction := FractionEnd(t, whole.value);
      if fraction.None? then None else ExponentEnd(t, fraction.value)
  }

  function ParseNumber(nf: NumberFormat, t: string, p: nat): (r: Parsed<Double>)
    requires p < |t|
    ensures r.Ok? ==> p < r.next <= |t|
  {
    var end := NumberEnd(t, p);
    if end.None? then Fail
    else
      var value := nf.strtod(t[p..end.value]);
      if IsFinite(value) then Ok(value, end.value) else Fail
  }

  /** Four hexadecimal digits. */
  function ParseUnit(t: string, p: nat): (r: Parsed<int>)
    ensures r.Ok? ==> r.next == p + 4 <= |t| && 0 <= r.value <= 0xFFFF
  {
    if p + 4 <= |t| && IsHex4(t[p..p + 4]) then Ok(Hex4(t[p..p + 4]), p + 4) else Fail
  }

  /** What follows a backslash: the decoded bytes. */
  function ParseEscape(t: string, p: nat): (r: Parsed<string>)
    requires p <= |t|
    ensures r.Ok? ==> p < r.next <= |t|
  {
    if p >= |t| then Fail
    else if Unescaped(t[p]).Some? then Ok([Unescaped(t[p]).value], p + 1)
    else if t[p] != 'u' then Fail
    else
      var unit := ParseUnit(t, p + 1);
      if unit.Fail? then Fail
      else if IsHighSurrogate(unit.value) then
        if !At(t, unit.next, [BACKSLASH, 'u']) then Fail
        else
          var low := ParseUnit(t, unit.next + 2);
          if low.Fail? || !IsLowSurrogate(low.value) then Fail
          else Ok(Utf8.Encode(PairScalar(unit.value, low.value)), low.next)
      else if IsLowSurrogate(unit.value) then Fail
      else Ok(Utf8.Encode(unit.value), unit.next)
  }

  /** The rest of a string, after `out` has been decoded. */
  function StringBody(t: string, p: nat, out: string): (r: Parsed<string>)
    requires p <= |t|
    ensures r.Ok? ==> p < r.next <= |t|
    decreases |t| - p
  {
    if p >= |t| then Fail
    else if t[p] == QUOTE then if Utf8.Valid(out) then Ok(out, p + 1) else Fail
    else if t[p] != BACKSLASH then if t[p] < ' ' then Fail else StringBody(t, p + 1, out + [t[p]])
    else
      var e := ParseEscape(t, p + 1);
      if e.Fail? then Fail else StringBody(t, e.next, out + e.value)
  }

  function ParseString(t: string, p: nat): (r: Parsed<string>)
    requires p <= |t|
    ensures r.Ok? ==> p < r.next <= |t|
  {
    if p >= |t| || t[p] != QUOTE then Fail else StringBody(t, p + 1, "")
  }

  function ParseValue(nf: NumberFormat, t: string, p: nat): (r: Parsed<Json>)
    requires p <= |t|
    ensures r.Ok? ==> p < r.next <= |t|
    decreases |t| - p, 3
  {
    var q := SkipSpace(t, p);
    if q >= |t| then Fail else ParseToken(nf, t, q)
  }

  /** A value that starts right at the cursor. */
  function ParseToken(nf: NumberFormat, t: string, q: nat): (r: Parsed<Json>)
    requires q < |t|
    ensures r.Ok? ==> q < r.next <= |t|
    decreases |t| - q, 2
  {
    var c := t[q];
    if c == '{' then ParseObject(nf, t, q)
    else if c == '[' then ParseArray(nf, t, q)
    else if c == QUOTE then
      var s := ParseString(t, q);
      if s.Fail? then Fail else Ok(Str(s.value), s.next)
    else if At(t, q, "true") then Ok(Bool(true), q + 4)
    else if At(t, q, "false") then Ok(Bool(false), q + 5)
    else if At(t, q, "null") then Ok(Null, q + 4)
    else if c == '-' || IsDigit(c) then
      var n := ParseNumber(nf, t, q);
      if n.Fail? then Fail else Ok(Num(n.value), n.next)
    else Fail
  }

  function ParseObject(nf: NumberFormat, t: string, p: nat): (r: Parsed<Json>)
    requires p < |t|
    ensures r.Ok? ==> p < r.next <= |t|
    decreases |t| - p, 1
  {
    var q := SkipSpace(t, p + 1);
    if q < |t| && t[q] == '}' then Ok(Object(map[]), q + 1) else ParseMembers(nf, t, q, map[])
  }

  function ParseMembers(nf: NumberFormat, t: string, p: nat, before: map<string, Json>): (r: Parsed<Json>)
    requires p <= |t|
    ensures r.Ok? ==> p < r.next <= |t|
    decreases |t| - p, 0
  {
    var k := SkipSpace(t, p);
    var key := ParseString(t, k);
    if key.Fail? then Fail
    else
      var colon := SkipSpace(t, key.next);
      if colon >= |t| || t[colon] != ':' then Fail
      else
        var value := ParseValue(nf, t, colon + 1);
        if value.Fail? || key.value in before then Fail
        else
          var all := before[key.value := value.value];
          var end := SkipSpace(t, value.next);
          if end >= |t| then Fail
          else if t[end] == '}' then Ok(Object(all), end + 1)
          else if t[end] != ',' then Fail
          else ParseMembers(nf, t, end + 1, all)
  }

  /** The name of the next member, up to and including the colon. */
  function NameAt(t: string, p: nat): (r: Parsed<string>)
    requires p <= |t|
    ensures r.Ok? ==> p < r.next <= |t|
  {
    var key := ParseString(t, SkipSpace(t, p));
    if key.Fail? then Fail
    else
      var colon := SkipSpace(t, key.next);
      if colon >= |t| || t[colon] != ':' then Fail else Ok(key.value, colon + 1)
  }

  /** The member loop: a name, a value, and the separator. */
  lemma MembersFromName(nf: NumberFormat, t: string, p: nat, before: map<string, Json>)
    requires p <= |t|
    ensures ParseMembers(nf, t, p, before) == (
              var key := NameAt(t, p);
              if key.Fail? then Fail
              else
                var value := ParseValue(nf, t, key.next);
                if value.Fail? || key.value in before then Fail
                else
                  var all := before[key.value := value.value];
                  var end := SkipSpace(t, value.next);
                  if end >= |t| then Fail
                  else if t[end] == '}' then Ok(Object(all), end + 1)
                  else if t[end] != ',' then Fail
                  else ParseMembers(nf, t, end + 1, all))
  {
    hide SkipSpace, ParseValue, ParseString;
  }

  function ParseArray(nf: NumberFormat, t: string, p: nat): (r: Parsed<Json>)
    requires p < |t|
    ensures r.Ok? ==> p < r.next <= |t|
    decreases |t| - p, 1
  {
    var q := SkipSpace(t, p + 1);
    if q < |t| && t[q] == ']' then Ok(Array([]), q + 1) else ParseElements(nf, t, q, [])
  }

  function ParseElements(nf: NumberFormat, t: string, p: nat, before: seq<Json>): (r: Parsed<Json>)
    requires p <= |t|
    ensures r.Ok? ==> p < r.next <= |t|
    decreases |t| - p, 4
  {
    var value := ParseValue(nf, t, p);
    if value.Fail? then Fail
    else
      var all := before + [value.value];
      var end := SkipSpace(t, value.next);
      if end >= |t| then Fail
      else if t[end] == ']' then Ok(Array(all), end + 1)
      else if t[end] != ',' then Fail
      else ParseElements(nf, t, end + 1, all)
  }

  /** A whole document. */
  function ParseDocument(nf: NumberFormat, t: string): Option<Json> {
    var value := ParseValue(nf, t, SkipSpace(t, 0));
    if value.Ok? && SkipSpace(t, value.next) == |t| then Some(value.value) else None
  }
}
