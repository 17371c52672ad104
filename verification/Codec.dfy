/** Collection documents: what `encodeCollectionJson` writes and what
    `decodeCollectionJson` makes of a text. */
module Codec {
  import opened Types
  import opened Hexadecimal
  import opened JsonGrammar
  import opened JsonParse
  import Decimal
  import JsonComplete
  import Ordering
  import Revision
  import Utf8

  /** Printing and reading numbers: what is printed for a finite number is a JSON
      number that reads back as itself; 1 reads as one; a 64-bit integer reads as
      something finite. */
  ghost predicate Faithful(nf: NumberFormat) {
    && (forall d :: IsFinite(d) ==> IsNumber(nf.show(d)) && nf.strtod(nf.show(d)) == d)
    && nf.strtod("1") == ONE
    && (forall n: nat :: n < TWO_TO_THE_64 ==> IsFinite(nf.strtod(Decimal.Digits(n))))
  }

  // Escaping

  function EscapeChar(c: char): string {
    if c == QUOTE || c == BACKSLASH then [BACKSLASH, c]
    else if c as int == 8 then [BACKSLASH, 'b']
    else if c as int == 12 then [BACKSLASH, 'f']
    else if c as int == 10 then [BACKSLASH, 'n']
    else if c as int == 13 then [BACKSLASH, 'r']
    else if c as int == 9 then [BACKSLASH, 't']
    else if c < ' ' then [BACKSLASH, 'u', '0', '0', HexChar(c as int / 16), HexChar(c as int % 16)]
    else [c]
  }

  function Escape(s: string): string {
    if s == "" then "" else EscapeChar(s[0]) + Escape(s[1..])
  }

  lemma EscapeStep(value: string, i: nat, before: string)
    requires i < |value|
    ensures before + Escape(value[i..]) == before + EscapeChar(value[i]) + Escape(value[i + 1..])
  {
    hide EscapeChar;
    assert value[i..][1..] == value[i + 1..];
    assert before + (EscapeChar(value[i]) + Escape(value[i + 1..]))
        == before + EscapeChar(value[i]) + Escape(value[i + 1..]);
  }

  method EscapeJson(value: string) returns (out: string)
    ensures out == Escape(value)
  {
    out := "";
    assert value[0..] == value;
    for i := 0 to |value|
      invariant out + Escape(value[i..]) == Escape(value)
    {
      hide Escape;
      var c := value[i];
      EscapeStep(value, i, out);
      if c == QUOTE || c == BACKSLASH {
        out := out + [BACKSLASH, c];
      } else if c as int == 8 {
        out := out + [BACKSLASH, 'b'];
      } else if c as int == 12 {
        out := out + [BACKSLASH, 'f'];
      } else if c as int == 10 {
        out := out + [BACKSLASH, 'n'];
      } else if c as int == 13 {
        out := out + [BACKSLASH, 'r'];
      } else if c as int == 9 {
        out := out + [BACKSLASH, 't'];
      } else if c < ' ' {
        out := out + [BACKSLASH, 'u', '0', '0', HexChar(c as int / 16), HexChar(c as int % 16)];
      } else {
        out := out + [c];
      }
    }
    assert out + Escape(value[|value|..]) == out;
  }

  /** The item the printer writes for a byte. */
  function ItemOf(c: char): Item {
    if c == QUOTE || c == BACKSLASH then Item.Escape(c)
    else if c as int == 8 then Item.Escape('b')
    else if c as int == 12 then Item.Escape('f')
    else if c as int == 10 then Item.Escape('n')
    else if c as int == 13 then Item.Escape('r')
    else if c as int == 9 then Item.Escape('t')
    else if c < ' ' then Unit(['0', '0', HexChar(c as int / 16), HexChar(c as int % 16)])
    else Raw(c)
  }

  function ItemsOf(s: string): seq<Item> {
    if s == "" then [] else [ItemOf(s[0])] + ItemsOf(s[1..])
  }

  lemma ControlItem(c: char)
    requires c < ' '
    ensures var code := ['0', '0', HexChar(c as int / 16), HexChar(c as int % 16)];
            IsHex4(code) && Hex4(code) == c as int
  {
    var h, l := c as int / 16, c as int % 16;
    PrintedDigitReads(h);
    PrintedDigitReads(l);
  }

  lemma ItemOfIsExact(c: char)
    ensures ItemShaped(ItemOf(c)) && ItemYield(ItemOf(c)) == EscapeChar(c) && ItemText(ItemOf(c)) == [c]
  {
    if c < ' ' {
      ControlItem(c);
      assert Utf8.Encode(c as int) == [c];
      hide Hex4, IsHex4, HexDigit, HexChar;
    }
  }

  /** The printer writes a string's items, and they denote the string. */
  lemma {:induction false} EscapeIsExact(s: string)
    ensures ItemsShaped(ItemsOf(s)) && ItemsYield(ItemsOf(s)) == Escape(s) && ItemsText(ItemsOf(s)) == s
  {
    hide ItemOf, EscapeChar, ItemShaped, ItemYield, ItemText;
    if s != "" {
      EscapeIsExact(s[1..]);
      ItemOfIsExact(s[0]);
      assert ItemsOf(s)[1..] == ItemsOf(s[1..]);
      assert s == [s[0]] + s[1..];
    }
  }

  // Encoding

  function ValueText(nf: NumberFormat, v: Value): string {
    match v
    case Boolean(flag) => if flag then "true" else "false"
    case Number(d) => nf.show(d)
    case Text(s) => [QUOTE] + Escape(s) + [QUOTE]
    case Vector3(x, y, z) => "[" + nf.show(x) + "," + nf.show(y) + "," + nf.show(z) + "]"
  }

  function EntryText(nf: NumberFormat, key: string, v: Value): string {
    [QUOTE] + Escape(key) + "\":{\"type\":\"" + Revision.ValueTypeName(v) + "\",\"value\":" + ValueText(nf, v) + "}"
  }

  /** The entries for the given keys, separated by commas. */
  function EntriesText(nf: NumberFormat, properties: Properties, keys: seq<string>): string
    requires forall k :: k in keys ==> k in properties
  {
    if keys == [] then ""
    else
      EntryText(nf, keys[0], properties[keys[0]])
      + (if |keys| == 1 then "" else "," + EntriesText(nf, properties, keys[1..]))
  }

  function HeaderText(ref: CollectionRef, revision: nat): string {
    "{\"schema\":1,\"target\":\"" + Escape(Revision.DescribeTarget(ref.target))
    + "\",\"collection\":\"" + Escape(ref.collection)
    + "\",\"revision\":" + Decimal.Digits(revision) + ",\"properties\":{"
  }

  /** The document. */
  function DocumentText(nf: NumberFormat, ref: CollectionRef, properties: Properties, revision: nat): string {
    HeaderText(ref, revision) + EntriesText(nf, properties, Ordering.SortedKeys(properties.Keys)) + "}}"
  }

  method EncodeEntry(nf: NumberFormat, key: string, v: Value) returns (out: string)
    ensures out == EntryText(nf, key, v)
  {
    var escaped := EscapeJson(key);
    out := [QUOTE] + escaped + "\":{\"type\":\"" + Revision.ValueTypeName(v) + "\",\"value\":";
    match v {
      case Boolean(flag) => out := out + (if flag then "true" else "false");
      case Number(d) => out := out + nf.show(d);
      case Text(s) =>
        var text := EscapeJson(s);
        out := out + ([QUOTE] + text + [QUOTE]);
      case Vector3(x, y, z) => out := out + ("[" + nf.show(x) + "," + nf.show(y) + "," + nf.show(z) + "]");
    }
    out := out + "}";
  }

  method EncodeEntries(nf: NumberFormat, properties: Properties, keys: seq<string>) returns (out: string)
    requires forall k :: k in keys ==> k in properties
    ensures out == EntriesText(nf, properties, keys)
  {
    hide EntryText;
    out := "";
    var first := true;
    EntriesStart(nf, properties, keys);
    for i := 0 to |keys|
      invariant first <==> i == 0
      invariant EntriesText(nf, properties, keys)
             == out + (if i == 0 || i == |keys| then "" else ",") + EntriesText(nf, properties, keys[i..])
    {
      hide EntriesText;
      ghost var before := out;
      if !first { out := out + ","; }
      first := false;
      var entry := EncodeEntry(nf, keys[i], properties[keys[i]]);
      out := out + entry;
      EntriesStep(nf, properties, keys, i, before, out, entry);
    }
    assert out + "" + EntriesText(nf, properties, keys[|keys|..]) == out;
  }

  lemma EntriesStart(nf: NumberFormat, properties: Properties, keys: seq<string>)
    requires forall k :: k in keys ==> k in properties
    ensures EntriesText(nf, properties, keys) == "" + "" + EntriesText(nf, properties, keys[0..])
    ensures EntriesText(nf, properties, keys[|keys|..]) == ""
  {
    assert keys[0..] == keys && keys[|keys|..] == [];
  }

  lemma Regroup(a: string, b: string, c: string, d: string)
    ensures a + (b + (c + d)) == a + b + c + d
  {
  }

  lemma EntriesTextFrom(nf: NumberFormat, properties: Properties, keys: seq<string>, i: nat)
    requires i < |keys| && forall k :: k in keys ==> k in properties
    ensures var entry := EntryText(nf, keys[i], properties[keys[i]]);
            var rest := EntriesText(nf, properties, keys[i + 1..]);
            if i + 1 == |keys| then EntriesText(nf, properties, keys[i..]) == entry && rest == ""
            else EntriesText(nf, properties, keys[i..]) == entry + ("," + rest)
  {
    hide EntryText;
    assert keys[i..][1..] == keys[i + 1..];
    if i + 1 == |keys| {
      assert keys[i + 1..] == [];
      assert EntryText(nf, keys[i], properties[keys[i]]) + "" == EntryText(nf, keys[i], properties[keys[i]]);
    }
  }

  lemma EntriesStep(
    nf: NumberFormat, properties: Properties, keys: seq<string>, i: nat, before: string, after: string, entry: string)
    requires forall k :: k in keys ==> k in properties
    requires i < |keys| && entry == EntryText(nf, keys[i], properties[keys[i]])
    requires after == before + (if i == 0 then "" else ",") + entry
    requires EntriesText(nf, properties, keys)
          == before + (if i == 0 then "" else ",") + EntriesText(nf, properties, keys[i..])
    ensures EntriesText(nf, properties, keys)
         == after + (if i + 1 == |keys| then "" else ",") + EntriesText(nf, properties, keys[i + 1..])
  {
    EntriesTextFrom(nf, properties, keys, i);
    hide EntryText, EntriesText;
    var head := before + (if i == 0 then "" else ",");
    var rest := EntriesText(nf, properties, keys[i + 1..]);
    Regroup(head, entry, if i + 1 == |keys| then "" else ",", rest);
    if i + 1 == |keys| {
      assert entry + ("" + rest) == entry;
    }
  }

  method EncodeCollectionJson(nf: NumberFormat, ref: CollectionRef, properties: Properties, revision: nat)
    returns (out: string)
    ensures out == DocumentText(nf, ref, properties, revision)
  {
    var target := EscapeJson(Revision.DescribeTarget(ref.target));
    var name := EscapeJson(ref.collection);
    out := "{\"schema\":1,\"target\":\"" + target + "\",\"collection\":\"" + name
         + "\",\"revision\":" + Decimal.Digits(revision) + ",\"properties\":{";
    var entries := EncodeEntries(nf, properties, Ordering.SortedKeys(properties.Keys));
    out := out + entries + "}}";
  }

  // Decoding

  /** A property entry: an object with exactly a type and a value that fit. */
  function DecodeEntry(j: Json): Option<Value> {
    if !j.Object? || |j.members| != 2 || "type" !in j.members || "value" !in j.members then None
    else if !j.members["type"].Str? then None
    else
      var type_, v := j.members["type"].text, j.members["value"];
      if type_ == "bool" then if v.Bool? then Some(Boolean(v.flag)) else None
      else if type_ == "number" then if v.Num? && IsFinite(v.number) then Some(Number(v.number)) else None
      else if type_ == "string" then if v.Str? then Some(Text(v.text)) else None
      else if type_ == "vector3" then
        if v.Array? && |v.items| == 3 && v.items[0].Num? && v.items[1].Num? && v.items[2].Num?
        then Some(Vector3(v.items[0].number, v.items[1].number, v.items[2].number)) else None
      else None
  }

  predicate AllDecode(members: map<string, Json>) {
    forall k :: k in members ==> DecodeEntry(members[k]).Some?
  }

  function DecodeEntries(members: map<string, Json>): Option<Properties> {
    if AllDecode(members) then Some(map k | k in members :: DecodeEntry(members[k]).value) else None
  }

  const ROOT_FIELDS: set<string> := {"schema", "target", "collection", "revision", "properties"}

  function DecodeRoot(j: Json): Option<Properties> {
    if !j.Object? || !(j.members.Keys <= ROOT_FIELDS) then None
    else if "schema" !in j.members || j.members["schema"] != Num(ONE) then None
    else if "properties" !in j.members || !j.members["properties"].Object? then None
    else DecodeEntries(j.members["properties"].members)
  }

  function DecodeDocument(nf: NumberFormat, document: string): Option<Properties> {
    var root := ParseDocument(nf, document);
    if root.None? then None else DecodeRoot(root.value)
  }

  /** The entries, one by one, until one does not decode. */
  method DecodeMembers(members: map<string, Json>) returns (result: Option<Properties>)
    ensures result == DecodeEntries(members)
  {
    var out: Properties := map[];
    var keys := Ordering.Enumerate(members.Keys);
    for i := 0 to |keys|
      invariant forall k :: k in keys[..i] ==> k in members && DecodeEntry(members[k]).Some?
      invariant out == map k | k in keys[..i] && k in members && DecodeEntry(members[k]).Some? ::
                         DecodeEntry(members[k]).value
    {
      var value := DecodeEntry(members[keys[i]]);
      if value.None? { return None; }
      assert keys[..i + 1] == keys[..i] + [keys[i]];
      out := out[keys[i] := value.value];
    }
    assert keys[..|keys|] == keys;
    hide DecodeEntry;
    assert AllDecode(members);
    assert out == map k | k in members :: DecodeEntry(members[k]).value;
    result := Some(out);
  }
}
