/** The grammar of JSON texts (RFC 8259), as concrete syntax trees: what each tree
    looks like as text, what it means, and what makes it acceptable. */
module JsonGrammar {
  import opened Types
  import opened Hexadecimal
  import Utf8

  /** How numbers are printed and read; the library leaves both to the C++ runtime. */
  datatype NumberFormat = NumberFormat(show: Double -> string, strtod: string -> Double)

  datatype Json =
    | Null
    | Bool(flag: bool)
    | Num(number: Double)
    | Str(text: string)
    | Object(members: map<string, Json>)
    | Array(items: seq<Json>)

  predicate IsSpace(c: char) {
    c == ' ' || c == '\n' || c == '\r' || c == '\t'
  }

  predicate AllSpace(s: string) {
    forall i :: 0 <= i < |s| ==> IsSpace(s[i])
  }

  predicate IsDigit(c: char) {
    '0' <= c <= '9'
  }

  predicate Digits(s: string) {
    s != "" && forall i :: 0 <= i < |s| ==> IsDigit(s[i])
  }

  // Section 6 of RFC 8259: numbers

  datatype Exponent = Exponent(mark: char, sign: string, digits: string)

  datatype NumberText = NumberText(negative: bool, whole: string, fraction: Option<string>, exponent: Option<Exponent>)

  function WholeYield(n: NumberText): string {
    (if n.negative then "-" else "") + n.whole
  }

  function FractionYield(f: Option<string>): string {
    if f.Some? then "." + f.value else ""
  }

  function ExponentYield(e: Option<Exponent>): string {
    if e.Some? then [e.value.mark] + e.value.sign + e.value.digits else ""
  }

  function NumberYield(n: NumberText): string {
    WholeYield(n) + FractionYield(n.fraction) + ExponentYield(n.exponent)
  }

  predicate NumberShaped(n: NumberText) {
    && (n.whole == "0" || (Digits(n.whole) && n.whole[0] != '0'))
    && (n.fraction.Some? ==> Digits(n.fraction.value))
    && (n.exponent.Some? ==>
          && (n.exponent.value.mark == 'e' || n.exponent.value.mark == 'E')
          && (n.exponent.value.sign == "" || n.exponent.value.sign == "+" || n.exponent.value.sign == "-")
          && Digits(n.exponent.value.digits))
  }

  /** A byte string that is a JSON number. */
  ghost predicate IsNumber(s: string) {
    exists n :: NumberShaped(n) && s == NumberYield(n)
  }

  // Section 7 of RFC 8259: strings

  datatype Item =
    | Raw(c: char)
    | Escape(c: char)
    | Unit(code: string)
    | Pair(high: string, low: string)

  const QUOTE: char := '\"'
  const BACKSLASH: char := '\\'

  predicate IsHex4(s: string) {
    |s| == 4 && HexDigit(s[0]) >= 0 && HexDigit(s[1]) >= 0 && HexDigit(s[2]) >= 0 && HexDigit(s[3]) >= 0
  }

  function Hex4(s: string): (v: int)
    requires IsHex4(s)
    ensures 0 <= v <= 0xFFFF
  {
    ((HexDigit(s[0]) * 16 + HexDigit(s[1])) * 16 + HexDigit(s[2])) * 16 + HexDigit(s[3])
  }

  /** The byte a two-character escape stands for, or `None`. */
  function Unescaped(c: char): Option<char> {
    if c == QUOTE || c == BACKSLASH || c == '/' then Some(c)
    else if c == 'b' then Some(8 as char)
    else if c == 'f' then Some(12 as char)
    else if c == 'n' then Some(10 as char)
    else if c == 'r' then Some(13 as char)
    else if c == 't' then Some(9 as char)
    else None
  }

  predicate IsHighSurrogate(v: int) { 0xD800 <= v <= 0xDBFF }

  predicate IsLowSurrogate(v: int) { 0xDC00 <= v <= 0xDFFF }

  function ItemYield(item: Item): (s: string)
    ensures s != ""
  {
    match item
    case Raw(c) => [c]
    case Escape(c) => [BACKSLASH, c]
    case Unit(code) => [BACKSLASH, 'u'] + code
    case Pair(high, low) => [BACKSLASH, 'u'] + high + [BACKSLASH, 'u'] + low
  }

  /** No control characters, quotes or backslashes in the raw; no lone surrogates. */
  predicate ItemShaped(item: Item) {
    match item
    case Raw(c) => c >= ' ' && c != QUOTE && c != BACKSLASH
    case Escape(c) => Unescaped(c).Some?
    case Unit(code) => IsHex4(code) && !IsHighSurrogate(Hex4(code)) && !IsLowSurrogate(Hex4(code))
    case Pair(high, low) => IsHex4(high) && IsHex4(low) && IsHighSurrogate(Hex4(high)) && IsLowSurrogate(Hex4(low))
  }

  function PairScalar(high: int, low: int): int {
    0x1_0000 + (high - 0xD800) * 0x400 + (low - 0xDC00)
  }

  /** Every accepted escape or surrogate pair denotes a Unicode scalar value. */
  lemma EscapesAreScalar(item: Item)
    requires ItemShaped(item)
    ensures item.Unit? ==> Utf8.IsScalar(Hex4(item.code))
    ensures item.Pair? ==> Utf8.IsScalar(PairScalar(Hex4(item.high), Hex4(item.low)))
  {
  }

  function ItemText(item: Item): string
    requires ItemShaped(item)
  {
    EscapesAreScalar(item);
    match item
    case Raw(c) => [c]
    case Escape(c) => [Unescaped(c).value]
    case Unit(code) => Utf8.Encode(Hex4(code))
    case Pair(high, low) => Utf8.Encode(PairScalar(Hex4(high), Hex4(low)))
  }

  predicate ItemsShaped(items: seq<Item>) {
    forall i :: 0 <= i < |items| ==> ItemShaped(items[i])
  }

  function ItemsYield(items: seq<Item>): string {
    if items == [] then "" else ItemYield(items[0]) + ItemsYield(items[1..])
  }

  /** The bytes a string denotes. */
  function ItemsText(items: seq<Item>): string
    requires ItemsShaped(items)
  {
    if items == [] then "" else ItemText(items[0]) + ItemsText(items[1..])
  }

  // Sections 2 to 5 of RFC 8259: values, arrays and objects

  datatype Tree =
    | TNull
    | TTrue
    | TFalse
    | TNumber(number: NumberText)
    | TString(items: seq<Item>)
    | TEmptyArray(pad: string)
    | TArray(elements: Elements)
    | TEmptyObject(pad: string)
    | TObject(members: Members)

  /** Non-empty lists, with the white space around every part. */
  datatype Elements =
    | Last(lead: string, tree: Tree, trail: string)
    | More(lead: string, tree: Tree, trail: string, rest: Elements)

  datatype Members =
    | LastMember(lead: string, key: seq<Item>, mid: string, inner: string, tree: Tree, trail: string)
    | MoreMembers(lead: string, key: seq<Item>, mid: string, inner: string, tree: Tree, trail: string, rest: Members)

  function StringYield(items: seq<Item>): string {
    [QUOTE] + ItemsYield(items) + [QUOTE]
  }

  function TreeYield(tree: Tree): string
    decreases tree, 1
  {
    match tree
    case TNull => "null"
    case TTrue => "true"
    case TFalse => "false"
    case TNumber(number) => NumberYield(number)
    case TString(items) => StringYield(items)
    case TEmptyArray(pad) => "[" + pad + "]"
    case TArray(elements) => "[" + ElementsYield(elements)
    case TEmptyObject(pad) => "{" + pad + "}"
    case TObject(members) => "{" + MembersYield(members)
  }

  function ElementsYield(es: Elements): string
    decreases es, 1
  {
    (es.lead + TreeYield(es.tree)) + ElementsTail(es)
  }

  /** From the white space after an element to the closing bracket. */
  function ElementsTail(es: Elements): string
    decreases es, 0
  {
    (es.trail + [if es.Last? then ']' else ',']) + if es.Last? then "" else ElementsYield(es.rest)
  }

  function MembersYield(ms: Members): string
    decreases ms, 1
  {
    (ms.lead + StringYield(ms.key)) + ((ms.mid + [':']) + ((ms.inner + TreeYield(ms.tree)) + MembersTail(ms)))
  }

  function MembersTail(ms: Members): string
    decreases ms, 0
  {
    (ms.trail + [if ms.LastMember? then '}' else ',']) + if ms.LastMember? then "" else MembersYield(ms.rest)
  }

  /** The tree is in the grammar. */
  predicate TreeShaped(tree: Tree) {
    match tree
    case TNumber(number) => NumberShaped(number)
    case TString(items) => ItemsShaped(items)
    case TEmptyArray(pad) => AllSpace(pad)
    case TArray(elements) => ElementsShaped(elements)
    case TEmptyObject(pad) => AllSpace(pad)
    case TObject(members) => MembersShaped(members)
    case _ => true
  }

  predicate ElementsShaped(es: Elements) {
    AllSpace(es.lead) && AllSpace(es.trail) && TreeShaped(es.tree) && (es.More? ==> ElementsShaped(es.rest))
  }

  predicate MembersShaped(ms: Members) {
    AllSpace(ms.lead) && ItemsShaped(ms.key) && AllSpace(ms.mid) && AllSpace(ms.inner) && AllSpace(ms.trail)
    && TreeShaped(ms.tree) && (ms.MoreMembers? ==> MembersShaped(ms.rest))
  }

  /** What a tree in the grammar denotes. */
  function Meaning(nf: NumberFormat, tree: Tree): Json
    requires TreeShaped(tree)
  {
    match tree
    case TNull => Null
    case TTrue => Bool(true)
    case TFalse => Bool(false)
    case TNumber(number) => Num(nf.strtod(NumberYield(number)))
    case TString(items) => Str(ItemsText(items))
    case TEmptyArray(_) => Array([])
    case TArray(elements) => Array(ElementsMeaning(nf, elements))
    case TEmptyObject(_) => Object(map[])
    case TObject(members) => Object(MembersMeaning(nf, members, map[]))
  }

  function ElementsMeaning(nf: NumberFormat, es: Elements): seq<Json>
    requires ElementsShaped(es)
  {
    [Meaning(nf, es.tree)] + if es.Last? then [] else ElementsMeaning(nf, es.rest)
  }

  /** The members are added to those before them. */
  function MembersMeaning(nf: NumberFormat, ms: Members, before: map<string, Json>): map<string, Json>
    requires MembersShaped(ms)
  {
    var all := before[ItemsText(ms.key) := Meaning(nf, ms.tree)];
    if ms.LastMember? then all else MembersMeaning(nf, ms.rest, all)
  }

  /** What the library demands beyond the grammar: valid UTF-8, finite numbers and
      distinct keys. */
  predicate Accepted(nf: NumberFormat, tree: Tree)
    requires TreeShaped(tree)
  {
    match tree
    case TNumber(number) => IsFinite(nf.strtod(NumberYield(number)))
    case TString(items) => Utf8.Valid(ItemsText(items))
    case TArray(elements) => ElementsAccepted(nf, elements)
    case TObject(members) => MembersAccepted(nf, members, {})
    case _ => true
  }

  predicate ElementsAccepted(nf: NumberFormat, es: Elements)
    requires ElementsShaped(es)
  {
    Accepted(nf, es.tree) && (es.More? ==> ElementsAccepted(nf, es.rest))
  }

  predicate MembersAccepted(nf: NumberFormat, ms: Members, before: set<string>)
    requires MembersShaped(ms)
  {
    var key := ItemsText(ms.key);
    && Utf8.Valid(key) && Accepted(nf, ms.tree) && key !in before
    && (ms.MoreMembers? ==> MembersAccepted(nf, ms.rest, before + {key}))
  }

  /** A text in the language: white space, a tree, white space. */
  ghost predicate Derives(nf: NumberFormat, text: string, value: Json) {
    exists lead, tree, trail ::
      text == lead + TreeYield(tree) + trail && AllSpace(lead) && AllSpace(trail)
      && TreeShaped(tree) && Accepted(nf, tree) && value == Meaning(nf, tree)
  }

  // Checking the decoded string once is checking every raw stretch

  /** The stretch of raw characters in front. */
  function RawStretch(items: seq<Item>): string {
    if items != [] && items[0].Raw? then [items[0].c] + RawStretch(items[1..]) else ""
  }

  function AfterStretch(items: seq<Item>): (rest: seq<Item>)
    ensures |rest| <= |items| && (rest == [] || !rest[0].Raw?)
    ensures ItemsShaped(items) ==> ItemsShaped(rest)
  {
    if items != [] && items[0].Raw? then AfterStretch(items[1..]) else items
  }

  /** Every maximal raw stretch of the source is valid UTF-8. */
  predicate StretchesValid(items: seq<Item>)
    decreases |items|
  {
    Utf8.Valid(RawStretch(items))
    && (AfterStretch(items) != [] ==> StretchesValid(AfterStretch(items)[1..]))
  }

  lemma {:induction false} TextIsStretchAndRest(items: seq<Item>)
    requires ItemsShaped(items)
    ensures ItemsText(items) == RawStretch(items) + ItemsText(AfterStretch(items))
  {
    if items != [] && items[0].Raw? { TextIsStretchAndRest(items[1..]); }
  }

  lemma EscapeIsScalarText(item: Item) returns (cp: int)
    requires ItemShaped(item) && !item.Raw?
    ensures Utf8.IsScalar(cp) && ItemText(item) == Utf8.Encode(cp)
  {
    EscapesAreScalar(item);
    match item
    case Escape(c) => cp := Unescaped(c).value as int;
    case Unit(code) => cp := Hex4(code);
    case Pair(high, low) => cp := PairScalar(Hex4(high), Hex4(low));
  }

  /** Checking the decoded bytes once, at the closing quote, is the same as
      checking every raw stretch of the source by itself: an escape never
      completes a truncated character. */
  lemma {:induction false} CheckOnceIsEnough(items: seq<Item>)
    requires ItemsShaped(items)
    ensures Utf8.Valid(ItemsText(items)) <==> StretchesValid(items)
    decreases |items|
  {
    TextIsStretchAndRest(items);
    var raw, rest := RawStretch(items), AfterStretch(items);
    if rest == [] {
      assert raw + "" == raw;
    } else {
      CheckOnceIsEnough(rest[1..]);
      var cp := EscapeIsScalarText(rest[0]);
      Utf8.ValidAroundScalar(raw, cp, ItemsText(rest[1..]));
      assert raw + ItemsText(rest) == raw + Utf8.Encode(cp) + ItemsText(rest[1..]);
    }
    hide ItemText, ItemShaped, RawStretch, Utf8.HeadLength, Utf8.Encode;
  }
}
