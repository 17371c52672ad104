/** A document reads back as exactly the properties it was written from, precisely
    when everything in it is valid; and whatever is read is valid. */
module CodecLaws {
  import opened Types
  import opened JsonGrammar
  import opened JsonParse
  import opened Codec
  import Decimal
  import JsonComplete
  import JsonSound
  import Ordering
  import Revision
  import Utf8

  predicate FiniteValue(v: Value) {
    match v
    case Number(d) => IsFinite(d)
    case Vector3(x, y, z) => IsFinite(x) && IsFinite(y) && IsFinite(z)
    case _ => true
  }

  predicate TextValid(v: Value) {
    v.Text? ==> Utf8.Valid(v.text)
  }

  predicate AllFinite(properties: Properties) {
    forall k :: k in properties ==> FiniteValue(properties[k])
  }

  predicate AllTextValid(properties: Properties) {
    forall k :: k in properties ==> Utf8.Valid(k) && TextValid(properties[k])
  }

  // The tree of a document

  ghost function NumberTextOf(s: string): (n: NumberText)
    requires IsNumber(s)
    ensures NumberShaped(n) && NumberYield(n) == s
  {
    var n :| NumberShaped(n) && s == NumberYield(n);
    n
  }

  ghost function NumTree(s: string): (tree: Tree)
    requires IsNumber(s)
    ensures TreeShaped(tree) && TreeYield(tree) == s
  {
    TNumber(NumberTextOf(s))
  }

  function StrTree(s: string): Tree {
    TString(ItemsOf(s))
  }

  lemma StrTreeIsExact(nf: NumberFormat, s: string)
    ensures TreeShaped(StrTree(s)) && TreeYield(StrTree(s)) == [QUOTE] + Codec.Escape(s) + [QUOTE]
    ensures Meaning(nf, StrTree(s)) == Str(s) && (Accepted(nf, StrTree(s)) <==> Utf8.Valid(s))
  {
    EscapeIsExact(s);
    hide ItemsOf, Codec.Escape, ItemsYield, ItemsText, ItemsShaped, Utf8.Valid;
  }

  lemma NumTreeIsExact(nf: NumberFormat, s: string)
    requires IsNumber(s)
    ensures Meaning(nf, NumTree(s)) == Num(nf.strtod(s)) && (Accepted(nf, NumTree(s)) <==> IsFinite(nf.strtod(s)))
  {
  }

  ghost function ValueTree(nf: NumberFormat, v: Value): Tree
    requires Faithful(nf) && FiniteValue(v)
  {
    match v
    case Boolean(flag) => if flag then TTrue else TFalse
    case Number(d) => NumTree(nf.show(d))
    case Text(s) => StrTree(s)
    case Vector3(x, y, z) =>
      TArray(More("", NumTree(nf.show(x)), "", More("", NumTree(nf.show(y)), "", Last("", NumTree(nf.show(z)), ""))))
  }

  /** What the tree of a value denotes. */
  function ValueJson(v: Value): Json {
    match v
    case Boolean(flag) => Bool(flag)
    case Number(d) => Num(d)
    case Text(s) => Str(s)
    case Vector3(x, y, z) => Array([Num(x), Num(y), Num(z)])
  }

  /** The tree is in the grammar, is written as `text`, denotes `j`, and is
      acceptable exactly when `ok`. */
  predicate Stands(nf: NumberFormat, tree: Tree, text: string, j: Json, ok: bool) {
    TreeShaped(tree) && TreeYield(tree) == text && Meaning(nf, tree) == j && (Accepted(nf, tree) <==> ok)
  }

  lemma LastElementStands(nf: NumberFormat, tree: Tree, text: string, j: Json, ok: bool)
    requires Stands(nf, tree, text, j, ok)
    ensures var es := Last("", tree, "");
            ElementsShaped(es) && ElementsYield(es) == text + "]" && ElementsMeaning(nf, es) == [j]
            && (ElementsAccepted(nf, es) <==> ok)
  {
    hide TreeShaped, TreeYield, Meaning, Accepted;
  }

  lemma MoreElementStands(nf: NumberFormat, tree: Tree, text: string, j: Json, ok: bool, rest: Elements)
    requires Stands(nf, tree, text, j, ok) && ElementsShaped(rest)
    ensures var es := More("", tree, "", rest);
            ElementsShaped(es) && ElementsYield(es) == text + "," + ElementsYield(rest)
            && ElementsMeaning(nf, es) == [j] + ElementsMeaning(nf, rest)
            && (ElementsAccepted(nf, es) <==> ok && ElementsAccepted(nf, rest))
  {
    hide TreeShaped, TreeYield, Meaning, Accepted;
    var es := More("", tree, "", rest);
    assert ElementsYield(es) == ("" + text) + (("" + [',']) + ElementsYield(rest));
  }

  lemma NumStands(nf: NumberFormat, d: Double)
    requires Faithful(nf) && IsFinite(d)
    ensures Stands(nf, NumTree(nf.show(d)), nf.show(d), Num(d), true)
  {
    NumTreeIsExact(nf, nf.show(d));
  }

  lemma VectorStands(nf: NumberFormat, x: Double, y: Double, z: Double)
    requires Faithful(nf) && FiniteValue(Vector3(x, y, z))
    ensures Stands(nf, ValueTree(nf, Vector3(x, y, z)), ValueText(nf, Vector3(x, y, z)),
                   ValueJson(Vector3(x, y, z)), true)
  {
    NumStands(nf, x);
    NumStands(nf, y);
    NumStands(nf, z);
    var tx, ty, tz := NumTree(nf.show(x)), NumTree(nf.show(y)), NumTree(nf.show(z));
    hide NumTree, Faithful, Stands;
    var e3 := Last("", tz, "");
    var e2 := More("", ty, "", e3);
    var e1 := More("", tx, "", e2);
    LastElementStands(nf, tz, nf.show(z), Num(z), true);
    MoreElementStands(nf, ty, nf.show(y), Num(y), true, e3);
    MoreElementStands(nf, tx, nf.show(x), Num(x), true, e2);
    ArrayStands(nf, e1, nf.show(x) + "," + (nf.show(y) + "," + (nf.show(z) + "]")),
                [Num(x)] + ([Num(y)] + [Num(z)]), true);
    VectorText(nf.show(x), nf.show(y), nf.show(z));
    assert [Num(x)] + ([Num(y)] + [Num(z)]) == [Num(x), Num(y), Num(z)];
    assert ValueTree(nf, Vector3(x, y, z)) == TArray(e1);
  }

  lemma VectorText(a: string, b: string, c: string)
    ensures "[" + (a + "," + (b + "," + (c + "]"))) == "[" + a + "," + b + "," + c + "]"
  {
  }

  lemma ArrayStands(nf: NumberFormat, es: Elements, text: string, items: seq<Json>, ok: bool)
    requires ElementsShaped(es) && ElementsYield(es) == text && ElementsMeaning(nf, es) == items
    requires ElementsAccepted(nf, es) <==> ok
    ensures Stands(nf, TArray(es), "[" + text, Array(items), ok)
  {
    hide ElementsShaped, ElementsYield, ElementsMeaning, ElementsAccepted;
  }

  lemma ValueStands(nf: NumberFormat, v: Value)
    requires Faithful(nf) && FiniteValue(v)
    ensures Stands(nf, ValueTree(nf, v), ValueText(nf, v), ValueJson(v), TextValid(v))
  {
    match v
    case Boolean(flag) =>
    case Number(d) => NumStands(nf, d);
    case Text(s) => StrTreeIsExact(nf, s);
    case Vector3(x, y, z) => VectorStands(nf, x, y, z);
  }

  /** A member without white space. */
  function MemberOf(key: string, tree: Tree): Members {
    LastMember("", ItemsOf(key), "", "", tree, "")
  }

  function MemberThen(key: string, tree: Tree, rest: Members): Members {
    MoreMembers("", ItemsOf(key), "", "", tree, "", rest)
  }

  function KeyText(key: string): string {
    [QUOTE] + Codec.Escape(key) + [QUOTE, ':']
  }

  lemma LastMemberStands(
    nf: NumberFormat, key: string, tree: Tree, text: string, j: Json, ok: bool,
    before: map<string, Json>, taken: set<string>)
    requires Stands(nf, tree, text, j, ok)
    ensures var ms := MemberOf(key, tree);
            MembersShaped(ms) && MembersYield(ms) == KeyText(key) + text + "}"
            && MembersMeaning(nf, ms, before) == before[key := j]
            && (MembersAccepted(nf, ms, taken) <==> Utf8.Valid(key) && ok && key !in taken)
  {
    EscapeIsExact(key);
    var ms := MemberOf(key, tree);
    hide TreeShaped, TreeYield, Meaning, Accepted, ItemsOf, Codec.Escape, ItemsYield, ItemsText, ItemsShaped,
         Utf8.Valid;
    assert MembersYield(ms) == ("" + StringYield(ItemsOf(key))) + (("" + [':']) + (("" + text) + (("" + ['}']) + "")));
    MemberText(Codec.Escape(key), text, "}");
  }

  lemma MemberText(e: string, text: string, tail: string)
    ensures ("" + ([QUOTE] + e + [QUOTE])) + (("" + [':']) + (("" + text) + tail))
         == [QUOTE] + e + [QUOTE, ':'] + text + tail
  {
    assert [QUOTE] + e + [QUOTE] + [':'] == [QUOTE] + e + [QUOTE, ':'];
  }

  lemma MoreMemberStands(
    nf: NumberFormat, key: string, tree: Tree, text: string, j: Json, ok: bool, rest: Members,
    before: map<string, Json>, taken: set<string>)
    requires Stands(nf, tree, text, j, ok) && MembersShaped(rest)
    ensures var ms := MemberThen(key, tree, rest);
            MembersShaped(ms) && MembersYield(ms) == KeyText(key) + text + "," + MembersYield(rest)
            && MembersMeaning(nf, ms, before) == MembersMeaning(nf, rest, before[key := j])
            && (MembersAccepted(nf, ms, taken) <==>
                  Utf8.Valid(key) && ok && key !in taken && MembersAccepted(nf, rest, taken + {key}))
  {
    EscapeIsExact(key);
    var ms := MemberThen(key, tree, rest);
    hide TreeShaped, TreeYield, Meaning, Accepted, ItemsOf, Codec.Escape, ItemsYield, ItemsText, ItemsShaped,
         Utf8.Valid;
    var tail := "," + MembersYield(rest);
    assert MembersYield(ms) == ("" + StringYield(ItemsOf(key))) + (("" + [':']) + (("" + text) + tail)) by {
      assert ("" + [',']) + MembersYield(rest) == tail;
    }
    MemberText(Codec.Escape(key), text, tail);
    assert KeyText(key) + text + tail == KeyText(key) + text + "," + MembersYield(rest);
  }

  lemma ObjectStands(nf: NumberFormat, ms: Members, text: string, members: map<string, Json>, ok: bool)
    requires MembersShaped(ms) && MembersYield(ms) == text && MembersMeaning(nf, ms, map[]) == members
    requires MembersAccepted(nf, ms, {}) <==> ok
    ensures Stands(nf, TObject(ms), "{" + text, Object(members), ok)
  {
    hide MembersShaped, MembersYield, MembersMeaning, MembersAccepted;
  }

  /** Text that needs no escaping. */
  predicate Plain(s: string) {
    forall i :: 0 <= i < |s| ==> s[i] >= ' ' && s[i] != QUOTE && s[i] != BACKSLASH && s[i] < 127 as char
  }

  lemma {:induction false} PlainText(s: string)
    requires Plain(s)
    ensures Codec.Escape(s) == s && Utf8.Valid(s)
  {
    if s != "" {
      PlainText(s[1..]);
      assert s == [s[0]] + s[1..];
      assert Utf8.HeadLength(s) == 1;
    }
  }

  lemma TypeNamePlain(v: Value)
    ensures Codec.Escape(Revision.ValueTypeName(v)) == Revision.ValueTypeName(v)
    ensures Utf8.Valid(Revision.ValueTypeName(v))
  {
    hide Codec.Escape, Utf8.Valid;
    PlainText(Revision.ValueTypeName(v));
  }

  /** A member whose name is plain. */
  lemma PlainName(name: string)
    requires Plain(name)
    ensures KeyText(name) == [QUOTE] + name + [QUOTE, ':'] && Utf8.Valid(name)
  {
    hide Codec.Escape, Utf8.Valid;
    PlainText(name);
  }

  // One property entry

  ghost function EntryTree(nf: NumberFormat, v: Value): Tree
    requires Faithful(nf) && FiniteValue(v)
  {
    TObject(MemberThen("type", StrTree(Revision.ValueTypeName(v)), MemberOf("value", ValueTree(nf, v))))
  }

  function EntryJson(v: Value): Json {
    Object(map["type" := Str(Revision.ValueTypeName(v)), "value" := ValueJson(v)])
  }

  /** The text of an entry after its key. */
  function EntryBody(nf: NumberFormat, v: Value): string {
    "{\"type\":\"" + Revision.ValueTypeName(v) + "\",\"value\":" + ValueText(nf, v) + "}"
  }

  lemma EntryBodyText(typeName: string, value: string)
    ensures "{" + (Named("type", [QUOTE] + typeName + [QUOTE]) + "," + (Named("value", value) + "}"))
         == "{\"type\":\"" + typeName + "\",\"value\":" + value + "}"
  {
    assert [QUOTE] + "type" + [QUOTE, ':'] + [QUOTE] == "\"type\":\"";
    assert [QUOTE] + "," + ([QUOTE] + "value" + [QUOTE, ':']) == "\",\"value\":";
  }

  /** The members of an object from some point on: the text up to the closing
      brace, the whole object and whether the rest is acceptable. */
  predicate RestStands(
    nf: NumberFormat, ms: Members, text: string, before: map<string, Json>, all: map<string, Json>, ok: bool) {
    MembersShaped(ms) && MembersYield(ms) == text && MembersMeaning(nf, ms, before) == all
    && (MembersAccepted(nf, ms, before.Keys) <==> ok)
  }

  /** A plainly named member and its value. */
  function Named(name: string, text: string): string {
    [QUOTE] + name + [QUOTE, ':'] + text
  }

  lemma LastNamed(
    nf: NumberFormat, name: string, tree: Tree, text: string, j: Json, ok: bool, before: map<string, Json>)
    requires Plain(name) && name !in before && Stands(nf, tree, text, j, ok)
    ensures RestStands(nf, MemberOf(name, tree), Named(name, text) + "}", before, before[name := j], ok)
  {
    PlainName(name);
    hide Plain, KeyText, MembersShaped, MembersYield, MembersMeaning, MembersAccepted, Stands, Utf8.Valid, MemberOf;
    LastMemberStands(nf, name, tree, text, j, ok, before, before.Keys);
  }

  lemma ThenNamed(
    nf: NumberFormat, name: string, tree: Tree, text: string, j: Json, ok: bool, before: map<string, Json>,
    rest: Members, restText: string, all: map<string, Json>, restOk: bool)
    requires Plain(name) && name !in before && Stands(nf, tree, text, j, ok)
    requires RestStands(nf, rest, restText, before[name := j], all, restOk)
    ensures RestStands(nf, MemberThen(name, tree, rest), Named(name, text) + "," + restText, before, all, ok && restOk)
  {
    PlainName(name);
    hide Plain, KeyText, MembersShaped, MembersYield, MembersMeaning, MembersAccepted, Stands, Utf8.Valid, MemberThen;
    assert before[name := j].Keys == before.Keys + {name};
    MoreMemberStands(nf, name, tree, text, j, ok, rest, before, before.Keys);
  }

  /** An object with two plainly named members. */
  lemma TwoMembersStand(
    nf: NumberFormat, a: string, ta: Tree, xa: string, ja: Json, oka: bool,
    b: string, tb: Tree, xb: string, jb: Json, okb: bool)
    requires Plain(a) && Plain(b) && a != b
    requires Stands(nf, ta, xa, ja, oka) && Stands(nf, tb, xb, jb, okb)
    ensures Stands(nf, TObject(MemberThen(a, ta, MemberOf(b, tb))), "{" + (Named(a, xa) + "," + (Named(b, xb) + "}")),
                   Object(map[a := ja, b := jb]), oka && okb)
  {
    hide Plain, Named, MemberOf, MemberThen, Stands, RestStands;
    LastNamed(nf, b, tb, xb, jb, okb, map[a := ja]);
    var none: map<string, Json> := map[];
    var text := Named(b, xb) + "}";
    ThenNamed(nf, a, ta, xa, ja, oka, none, MemberOf(b, tb), text, map[a := ja, b := jb], okb);
    NamedObject(nf, MemberThen(a, ta, MemberOf(b, tb)), Named(a, xa) + "," + text, map[a := ja, b := jb], oka && okb);
  }

  lemma NamedObject(nf: NumberFormat, ms: Members, text: string, all: map<string, Json>, ok: bool)
    requires RestStands(nf, ms, text, map[], all, ok)
    ensures Stands(nf, TObject(ms), "{" + text, Object(all), ok)
  {
    hide MembersShaped, MembersYield, MembersMeaning, MembersAccepted, Stands;
    var none: map<string, Json> := map[];
    assert none.Keys == {};
    ObjectStands(nf, ms, text, all, ok);
  }

  lemma EntryStands(nf: NumberFormat, v: Value)
    requires Faithful(nf) && FiniteValue(v)
    ensures Stands(nf, EntryTree(nf, v), EntryBody(nf, v), EntryJson(v), TextValid(v))
  {
    var typeName := Revision.ValueTypeName(v);
    hide Codec.Escape, Utf8.Valid, Faithful, ValueTree, ValueText, TextValid, FiniteValue, StrTree, MemberOf,
         MemberThen, Revision.ValueTypeName, Stands;
    TypeNamePlain(v);
    ValueStands(nf, v);
    PlainStringStands(nf, typeName);
    TwoMembersStand(nf, "type", StrTree(typeName), [QUOTE] + typeName + [QUOTE], Str(typeName), true,
                    "value", ValueTree(nf, v), ValueText(nf, v), ValueJson(v), TextValid(v));
    EntryBodyText(typeName, ValueText(nf, v));
  }

  lemma PlainStringStands(nf: NumberFormat, s: string)
    requires Codec.Escape(s) == s && Utf8.Valid(s)
    ensures Stands(nf, StrTree(s), [QUOTE] + s + [QUOTE], Str(s), true)
  {
    hide Codec.Escape, Utf8.Valid;
    StrTreeIsExact(nf, s);
  }

  /** An entry decodes to the value it was written for. */
  lemma EntryDecodes(v: Value)
    requires FiniteValue(v)
    ensures DecodeEntry(EntryJson(v)) == Some(v)
  {
    var m := EntryJson(v).members;
    assert m.Keys == {"type", "value"};
    assert m["type"] == Str(Revision.ValueTypeName(v)) && m["value"] == ValueJson(v);
  }

  // All properties

  ghost function EntryMembers(nf: NumberFormat, properties: Properties, keys: seq<string>): Members
    requires keys != [] && Faithful(nf) && AllFinite(properties) && forall k :: k in keys ==> k in properties
  {
    var tree := EntryTree(nf, properties[keys[0]]);
    if |keys| == 1 then MemberOf(keys[0], tree) else MemberThen(keys[0], tree, EntryMembers(nf, properties, keys[1..]))
  }

  function JsonOf(properties: Properties, keys: set<string>): map<string, Json>
    requires keys <= properties.Keys
  {
    map k | k in keys :: EntryJson(properties[k])
  }

  predicate EntriesValid(properties: Properties, keys: seq<string>)
    requires forall k :: k in keys ==> k in properties
  {
    forall k :: k in keys ==> Utf8.Valid(k) && TextValid(properties[k])
  }

  predicate Distinct(keys: seq<string>) {
    forall i, j :: 0 <= i < j < |keys| ==> keys[i] != keys[j]
  }

  /** What the list of entries stands for, added to `before`. */
  predicate EntriesStand(
    nf: NumberFormat, ms: Members, properties: Properties, keys: seq<string>, before: map<string, Json>)
    requires forall k :: k in keys ==> k in properties
  {
    && MembersShaped(ms)
    && MembersYield(ms) == EntriesText(nf, properties, keys) + "}"
    && MembersMeaning(nf, ms, before) == before + JsonOf(properties, KeySet(keys))
    && (MembersAccepted(nf, ms, before.Keys) <==> EntriesValid(properties, keys))
  }

  lemma EntryTextSplit(nf: NumberFormat, key: string, v: Value)
    ensures EntryText(nf, key, v) == KeyText(key) + EntryBody(nf, v)
  {
    hide Codec.Escape, ValueText, Revision.ValueTypeName;
    var e, n, t := Codec.Escape(key), Revision.ValueTypeName(v), ValueText(nf, v);
    assert "\":{\"type\":\"" == [QUOTE, ':'] + "{\"type\":\"";
    assert [QUOTE] + e + ([QUOTE, ':'] + "{\"type\":\"") == [QUOTE] + e + [QUOTE, ':'] + "{\"type\":\"";
  }

  lemma EntriesTextStep(nf: NumberFormat, properties: Properties, keys: seq<string>)
    requires keys != [] && forall k :: k in keys ==> k in properties
    ensures |keys| == 1 ==>
              EntriesText(nf, properties, keys) + "}" == KeyText(keys[0]) + EntryBody(nf, properties[keys[0]]) + "}"
    ensures |keys| > 1 ==>
              EntriesText(nf, properties, keys) + "}"
              == KeyText(keys[0]) + EntryBody(nf, properties[keys[0]]) + ","
                 + (EntriesText(nf, properties, keys[1..]) + "}")
  {
    EntryTextSplit(nf, keys[0], properties[keys[0]]);
    hide EntryText, KeyText, EntryBody;
    var head := KeyText(keys[0]) + EntryBody(nf, properties[keys[0]]);
    if |keys| > 1 {
      var rest := EntriesText(nf, properties, keys[1..]);
      assert EntriesText(nf, properties, keys) == head + ("," + rest);
      assert head + ("," + rest) + "}" == head + "," + (rest + "}");
    } else {
      assert EntriesText(nf, properties, keys) == head + "";
    }
  }

  lemma JsonOfStep(properties: Properties, keys: seq<string>, before: map<string, Json>)
    requires keys != [] && forall k :: k in keys ==> k in properties
    ensures before + JsonOf(properties, KeySet(keys))
         == before[keys[0] := EntryJson(properties[keys[0]])] + JsonOf(properties, KeySet(keys[1..]))
    ensures |keys| == 1 ==>
              before + JsonOf(properties, KeySet(keys)) == before[keys[0] := EntryJson(properties[keys[0]])]
  {
    hide EntryJson;
    assert keys == [keys[0]] + keys[1..];
  }

  lemma EntriesValidStep(properties: Properties, keys: seq<string>)
    requires keys != [] && forall k :: k in keys ==> k in properties
    ensures EntriesValid(properties, keys) <==>
              Utf8.Valid(keys[0]) && TextValid(properties[keys[0]])
              && (|keys| > 1 ==> EntriesValid(properties, keys[1..]))
  {
    hide Utf8.Valid, TextValid;
    assert keys == [keys[0]] + keys[1..];
  }

  lemma LastEntryStands(nf: NumberFormat, properties: Properties, key: string, before: map<string, Json>)
    requires Faithful(nf) && AllFinite(properties) && key in properties && key !in before
    ensures EntriesStand(nf, EntryMembers(nf, properties, [key]), properties, [key], before)
  {
    var v, keys := properties[key], [key];
    hide Stands, EntryTree, EntryBody, EntryText, KeyText, EntryJson, Utf8.Valid, TextValid, Faithful, FiniteValue,
         MembersShaped, MembersYield, MembersMeaning, MembersAccepted, MemberOf, MemberThen, EntriesText, JsonOf,
         KeySet, EntriesValid;
    EntryStands(nf, v);
    EntriesTextStep(nf, properties, keys);
    JsonOfStep(properties, keys, before);
    EntriesValidStep(properties, keys);
    LastMemberStands(nf, key, EntryTree(nf, v), EntryBody(nf, v), EntryJson(v), TextValid(v), before, before.Keys);
  }

  lemma EntryMembersStep(nf: NumberFormat, properties: Properties, keys: seq<string>)
    requires Faithful(nf) && AllFinite(properties) && |keys| > 1 && forall k :: k in keys ==> k in properties
    ensures EntryMembers(nf, properties, keys)
         == MemberThen(keys[0], EntryTree(nf, properties[keys[0]]), EntryMembers(nf, properties, keys[1..]))
  {
    hide EntryTree, MemberThen, MemberOf, Faithful, FiniteValue;
  }

  /** One more entry in front of entries that stand. */
  lemma EntriesPrepended(
    nf: NumberFormat, ms: Members, rest: Members, properties: Properties, keys: seq<string>, before: map<string, Json>)
    requires |keys| > 1 && keys[0] !in before && forall k :: k in keys ==> k in properties
    requires EntriesStand(nf, rest, properties, keys[1..], before[keys[0] := EntryJson(properties[keys[0]])])
    requires MembersShaped(ms)
    requires MembersYield(ms) == KeyText(keys[0]) + EntryBody(nf, properties[keys[0]]) + "," + MembersYield(rest)
    requires MembersMeaning(nf, ms, before)
          == MembersMeaning(nf, rest, before[keys[0] := EntryJson(properties[keys[0]])])
    requires MembersAccepted(nf, ms, before.Keys) <==>
               Utf8.Valid(keys[0]) && TextValid(properties[keys[0]])
               && MembersAccepted(nf, rest, before.Keys + {keys[0]})
    ensures EntriesStand(nf, ms, properties, keys, before)
  {
    hide EntryBody, KeyText, EntryJson, Utf8.Valid, TextValid, MembersShaped, MembersYield, MembersMeaning,
         MembersAccepted, EntriesText, JsonOf, KeySet, EntriesValid;
    EntriesTextStep(nf, properties, keys);
    JsonOfStep(properties, keys, before);
    EntriesValidStep(properties, keys);
    assert before[keys[0] := EntryJson(properties[keys[0]])].Keys == before.Keys + {keys[0]};
  }

  lemma MoreEntriesStand(
    nf: NumberFormat, properties: Properties, keys: seq<string>, before: map<string, Json>)
    requires Faithful(nf) && AllFinite(properties) && |keys| > 1 && keys[0] !in before
    requires forall k :: k in keys ==> k in properties
    requires EntriesStand(nf, EntryMembers(nf, properties, keys[1..]), properties, keys[1..],
                          before[keys[0] := EntryJson(properties[keys[0]])])
    ensures EntriesStand(nf, EntryMembers(nf, properties, keys), properties, keys, before)
  {
    var key, v := keys[0], properties[keys[0]];
    var rest := EntryMembers(nf, properties, keys[1..]);
    EntryMembersStep(nf, properties, keys);
    assert MembersShaped(rest);
    hide EntriesStand, EntryMembers, Stands, EntryTree, EntryBody, EntryJson, KeyText, MemberThen, TextValid,
         Utf8.Valid, Faithful, MembersShaped, MembersYield, MembersMeaning, MembersAccepted;
    EntryStands(nf, v);
    MoreMemberStands(nf, key, EntryTree(nf, v), EntryBody(nf, v), EntryJson(v), TextValid(v), rest, before,
                     before.Keys);
    EntriesPrepended(nf, MemberThen(key, EntryTree(nf, v), rest), rest, properties, keys, before);
  }

  lemma {:induction false} EntriesAreExact(
    nf: NumberFormat, properties: Properties, keys: seq<string>, before: map<string, Json>)
    requires Faithful(nf) && AllFinite(properties) && keys != [] && Distinct(keys)
    requires forall k :: k in keys ==> k in properties
    requires forall k :: k in keys ==> k !in before
    ensures EntriesStand(nf, EntryMembers(nf, properties, keys), properties, keys, before)
    decreases |keys|
  {
    hide EntriesStand, EntryMembers, Faithful, FiniteValue, EntryJson;
    if |keys| == 1 {
      assert keys == [keys[0]];
      LastEntryStands(nf, properties, keys[0], before);
    } else {
      assert forall k :: k in keys[1..] ==> k in keys && k != keys[0];
      EntriesAreExact(nf, properties, keys[1..], before[keys[0] := EntryJson(properties[keys[0]])]);
      MoreEntriesStand(nf, properties, keys, before);
    }
  }

  ghost function PropertiesTree(nf: NumberFormat, properties: Properties): Tree
    requires Faithful(nf) && AllFinite(properties)
  {
    var keys := Ordering.SortedKeys(properties.Keys);
    if keys == [] then TEmptyObject("") else TObject(EntryMembers(nf, properties, keys))
  }

  function PropertiesText(nf: NumberFormat, properties: Properties): string {
    "{" + EntriesText(nf, properties, Ordering.SortedKeys(properties.Keys)) + "}"
  }

  lemma SortedKeysAreAll(properties: Properties)
    ensures var keys := Ordering.SortedKeys(properties.Keys);
            Distinct(keys) && KeySet(keys) == properties.Keys && (keys == [] <==> properties == map[])
  {
    var keys := Ordering.SortedKeys(properties.Keys);
    forall i, j | 0 <= i < j < |keys| ensures keys[i] != keys[j] {
      Ordering.LexAsymmetric(keys[i], keys[j]);
    }
    hide Ordering.SortedKeys, Ordering.LexLess, Ordering.StrictlySorted;
    if keys == [] { assert properties.Keys == {}; }
    if properties == map[] { assert properties.Keys == {}; }
  }

  lemma AllEntriesValid(properties: Properties, keys: seq<string>)
    requires KeySet(keys) == properties.Keys && forall k :: k in keys ==> k in properties
    ensures EntriesValid(properties, keys) <==> AllTextValid(properties)
  {
    hide Utf8.Valid, TextValid;
    assert forall k :: k in keys <==> k in KeySet(keys);
  }

  lemma PropertiesStand(nf: NumberFormat, properties: Properties)
    requires Faithful(nf) && AllFinite(properties)
    ensures Stands(nf, PropertiesTree(nf, properties), PropertiesText(nf, properties),
                   Object(JsonOf(properties, properties.Keys)), AllTextValid(properties))
  {
    var keys := Ordering.SortedKeys(properties.Keys);
    hide Ordering.SortedKeys, Ordering.StrictlySorted, Utf8.Valid, TextValid, Faithful, FiniteValue, EntryJson,
         Distinct, KeySet, EntryMembers, MembersShaped, MembersYield, MembersMeaning, MembersAccepted, EntriesValid,
         AllTextValid, Stands;
    SortedKeysAreAll(properties);
    AllEntriesValid(properties, keys);
    if keys == [] {
      NoProperties(nf, properties);
    } else {
      hide EntriesText;
      var none: map<string, Json> := map[];
      assert none.Keys == {} && none + JsonOf(properties, properties.Keys) == JsonOf(properties, properties.Keys);
      EntriesAreExact(nf, properties, keys, none);
      hide JsonOf;
      ObjectStands(nf, EntryMembers(nf, properties, keys), EntriesText(nf, properties, keys) + "}",
                   JsonOf(properties, properties.Keys), AllTextValid(properties));
      assert "{" + (EntriesText(nf, properties, keys) + "}") == PropertiesText(nf, properties);
    }
  }

  lemma NoProperties(nf: NumberFormat, properties: Properties)
    requires properties == map[]
    ensures JsonOf(properties, properties.Keys) == map[] && AllTextValid(properties)
    ensures Stands(nf, TEmptyObject(""), "{" + "" + "}", Object(map[]), true)
  {
    EmptyStands(nf);
  }

  lemma EmptyStands(nf: NumberFormat)
    ensures Stands(nf, TEmptyObject(""), "{" + "" + "}", Object(map[]), true)
  {
  }

  // The whole document

  lemma DigitsAreNumber(n: nat)
    ensures IsNumber(Decimal.Digits(n))
  {
    var s := Decimal.Digits(n);
    var number := NumberText(false, s, None, None);
    hide Decimal.Digits;
    assert NumberYield(number) == s;
    assert NumberShaped(number);
  }

  lemma OneIsNumber()
    ensures IsNumber("1")
  {
    DigitsAreNumber(1);
    assert Decimal.Digits(1) == "1";
  }

  ghost function DocumentTree(nf: NumberFormat, ref: CollectionRef, properties: Properties, revision: nat): Tree
    requires Faithful(nf) && AllFinite(properties)
  {
    OneIsNumber();
    DigitsAreNumber(revision);
    TObject(MemberThen("schema", NumTree("1"),
            MemberThen("target", StrTree(Revision.DescribeTarget(ref.target)),
            MemberThen("collection", StrTree(ref.collection),
            MemberThen("revision", NumTree(Decimal.Digits(revision)),
            MemberOf("properties", PropertiesTree(nf, properties)))))))
  }

  function DocumentJson(nf: NumberFormat, ref: CollectionRef, properties: Properties, revision: nat): Json {
    Object(map["schema" := Num(ONE), "target" := Str(Revision.DescribeTarget(ref.target)),
               "collection" := Str(ref.collection),
               "revision" := Num(nf.strtod(Decimal.Digits(revision))),
               "properties" := Object(JsonOf(properties, properties.Keys))])
  }

  /** The five members of a document, in order. */
  function DocumentMembers(x1: string, x2: string, x3: string, x4: string, x5: string): string {
    "{" + (Named("schema", x1) + "," + (Named("target", x2) + "," + (Named("collection", x3) + ","
        + (Named("revision", x4) + "," + (Named("properties", x5) + "}")))))
  }

  lemma FiveMembersStand(
    nf: NumberFormat, t1: Tree, x1: string, j1: Json, t2: Tree, x2: string, j2: Json, ok2: bool,
    t3: Tree, x3: string, j3: Json, ok3: bool, t4: Tree, x4: string, j4: Json,
    t5: Tree, x5: string, j5: Json, ok5: bool)
    requires Stands(nf, t1, x1, j1, true) && Stands(nf, t2, x2, j2, ok2) && Stands(nf, t3, x3, j3, ok3)
    requires Stands(nf, t4, x4, j4, true) && Stands(nf, t5, x5, j5, ok5)
    ensures Stands(nf,
              TObject(MemberThen("schema", t1, MemberThen("target", t2, MemberThen("collection", t3,
                      MemberThen("revision", t4, MemberOf("properties", t5)))))),
              DocumentMembers(x1, x2, x3, x4, x5),
              Object(map["schema" := j1, "target" := j2, "collection" := j3, "revision" := j4, "properties" := j5]),
              ok2 && ok3 && ok5)
  {
    hide Stands, RestStands, MemberOf, MemberThen, Named;
    var m0: map<string, Json> := map[];
    var m1 := m0["schema" := j1];
    var m2 := m1["target" := j2];
    var m3 := m2["collection" := j3];
    var m4 := m3["revision" := j4];
    var m5 := m4["properties" := j5];
    var s5, r5 := MemberOf("properties", t5), Named("properties", x5) + "}";
    var s4, r4 := MemberThen("revision", t4, s5), Named("revision", x4) + "," + r5;
    var s3, r3 := MemberThen("collection", t3, s4), Named("collection", x3) + "," + r4;
    var s2, r2 := MemberThen("target", t2, s3), Named("target", x2) + "," + r3;
    var s1, r1 := MemberThen("schema", t1, s2), Named("schema", x1) + "," + r2;
    LastNamed(nf, "properties", t5, x5, j5, ok5, m4);
    ThenNamed(nf, "revision", t4, x4, j4, true, m3, s5, r5, m5, ok5);
    ThenNamed(nf, "collection", t3, x3, j3, ok3, m2, s4, r4, m5, ok5);
    ThenNamed(nf, "target", t2, x2, j2, ok2, m1, s3, r3, m5, ok3 && ok5);
    ThenNamed(nf, "schema", t1, x1, j1, true, m0, s2, r2, m5, ok2 && ok3 && ok5);
    NamedObject(nf, s1, r1, m5, ok2 && ok3 && ok5);
  }

  // Re-association of the document's pieces

  lemma FirstPieces(b: string, one: string, k: string, q: string, p1: string, p2: string, t: string, rest: string)
    ensures b + ((p1 + one) + k + ((p2 + (q + t + q)) + k + rest)) == (b + p1 + one + k + p2 + q) + t + (q + k + rest)
  {
  }

  lemma LastPieces(
    b: string, k: string, q: string, p3: string, c: string, p4: string, r: string, p5: string, e: string, z: string)
    ensures (p3 + (q + c + q)) + k + ((p4 + r) + k + ((p5 + (b + e + z)) + z))
         == (p3 + q) + c + (q + k + p4) + r + (k + p5 + b) + e + (z + z)
  {
  }

  lemma MiddlePieces(a: string, k: string, p: string, c: string, x: string, r: string, y: string, e: string, z: string)
    ensures a + (k + (p + c + x + r + y + e + z)) == a + (k + p) + c + x + r + y + e + z
  {
  }

  lemma DocumentPieces(
    b: string, one: string, k: string, q: string, p1: string, p2: string, t: string, p3: string, c: string,
    p4: string, r: string, p5: string, e: string, z: string)
    ensures b + ((p1 + one) + k + ((p2 + (q + t + q)) + k + ((p3 + (q + c + q)) + k
            + ((p4 + r) + k + ((p5 + (b + e + z)) + z)))))
         == (b + p1 + one + k + p2 + q) + t + ((q + k) + (p3 + q)) + c + (q + k + p4) + r + (k + p5 + b) + e + (z + z)
  {
    FirstPieces(b, one, k, q, p1, p2, t, (p3 + (q + c + q)) + k + ((p4 + r) + k + ((p5 + (b + e + z)) + z)));
    LastPieces(b, k, q, p3, c, p4, r, p5, e, z);
    MiddlePieces((b + p1 + one + k + p2 + q) + t, q + k, p3 + q, c, q + k + p4, r, k + p5 + b, e, z + z);
  }

  lemma DocumentIsNamed(nf: NumberFormat, ref: CollectionRef, properties: Properties, revision: nat)
    ensures DocumentText(nf, ref, properties, revision)
         == DocumentMembers("1", [QUOTE] + Codec.Escape(Revision.DescribeTarget(ref.target)) + [QUOTE],
                            [QUOTE] + Codec.Escape(ref.collection) + [QUOTE], Decimal.Digits(revision),
                            PropertiesText(nf, properties))
  {
    var t, c := Codec.Escape(Revision.DescribeTarget(ref.target)), Codec.Escape(ref.collection);
    var r := Decimal.Digits(revision);
    var e := EntriesText(nf, properties, Ordering.SortedKeys(properties.Keys));
    hide Codec.Escape, Revision.DescribeTarget, Decimal.Digits, EntriesText, Ordering.SortedKeys;
    var q := [QUOTE];
    var p1, p2, p3 := q + "schema" + [QUOTE, ':'], q + "target" + [QUOTE, ':'], q + "collection" + [QUOTE, ':'];
    var p4, p5 := q + "revision" + [QUOTE, ':'], q + "properties" + [QUOTE, ':'];
    DocumentPieces("{", "1", ",", q, p1, p2, t, p3, c, p4, r, p5, e, "}");
    DocumentLiterals();
    MoreDocumentLiterals();
  }

  lemma DocumentLiterals()
    ensures "{" + ([QUOTE] + "schema" + [QUOTE, ':']) + "1" + "," + ([QUOTE] + "target" + [QUOTE, ':']) + [QUOTE]
         == "{\"schema\":1,\"target\":\""
    ensures ([QUOTE] + ",") + (([QUOTE] + "collection" + [QUOTE, ':']) + [QUOTE]) == "\",\"collection\":\""
  {
  }

  lemma MoreDocumentLiterals()
    ensures [QUOTE] + "," + ([QUOTE] + "revision" + [QUOTE, ':']) == "\",\"revision\":"
    ensures "," + ([QUOTE] + "properties" + [QUOTE, ':']) + "{" == ",\"properties\":{"
    ensures "}" + "}" == "}}"
  {
  }

  lemma NumberTextStands(nf: NumberFormat, s: string)
    requires IsNumber(s) && IsFinite(nf.strtod(s))
    ensures Stands(nf, NumTree(s), s, Num(nf.strtod(s)), true)
  {
    NumTreeIsExact(nf, s);
  }

  lemma StringStands(nf: NumberFormat, s: string)
    ensures Stands(nf, StrTree(s), [QUOTE] + Codec.Escape(s) + [QUOTE], Str(s), Utf8.Valid(s))
  {
    hide StrTree;
    StrTreeIsExact(nf, s);
  }

  lemma HeaderNumbers(nf: NumberFormat, revision: nat)
    requires Faithful(nf) && revision < TWO_TO_THE_64
    ensures IsNumber("1") && IsFinite(nf.strtod("1")) && nf.strtod("1") == ONE
    ensures IsNumber(Decimal.Digits(revision)) && IsFinite(nf.strtod(Decimal.Digits(revision)))
  {
    OneIsNumber();
    DigitsAreNumber(revision);
    hide Decimal.Digits, IsNumber;
  }

  lemma DocumentStands(nf: NumberFormat, ref: CollectionRef, properties: Properties, revision: nat)
    requires Faithful(nf) && AllFinite(properties) && revision < TWO_TO_THE_64
    ensures Stands(nf, DocumentTree(nf, ref, properties, revision), DocumentText(nf, ref, properties, revision),
                   DocumentJson(nf, ref, properties, revision),
                   Utf8.Valid(Revision.DescribeTarget(ref.target)) && Utf8.Valid(ref.collection)
                   && AllTextValid(properties))
  {
    hide Faithful, FiniteValue, Codec.Escape, Utf8.Valid, AllTextValid, NumTree, StrTree, PropertiesTree,
         PropertiesText, Named, Stands, RestStands, MemberOf, MemberThen, JsonOf, Decimal.Digits,
         Revision.DescribeTarget, IsNumber, DocumentText, DocumentMembers, IsFinite;
    var target, name, rev := Revision.DescribeTarget(ref.target), ref.collection, Decimal.Digits(revision);
    HeaderNumbers(nf, revision);
    NumberTextStands(nf, "1");
    NumberTextStands(nf, rev);
    StringStands(nf, target);
    StringStands(nf, name);
    PropertiesStand(nf, properties);
    FiveMembersStand(nf, NumTree("1"), "1", Num(ONE),
                     StrTree(target), [QUOTE] + Codec.Escape(target) + [QUOTE], Str(target), Utf8.Valid(target),
                     StrTree(name), [QUOTE] + Codec.Escape(name) + [QUOTE], Str(name), Utf8.Valid(name),
                     NumTree(rev), rev, Num(nf.strtod(rev)),
                     PropertiesTree(nf, properties), PropertiesText(nf, properties),
                     Object(JsonOf(properties, properties.Keys)), AllTextValid(properties));
    DocumentIsNamed(nf, ref, properties, revision);
  }

  // What is read is clean

  /** Only valid UTF-8 and finite numbers. */
  predicate Clean(j: Json) {
    match j
    case Num(d) => IsFinite(d)
    case Str(s) => Utf8.Valid(s)
    case Object(members) => forall k :: k in members ==> Utf8.Valid(k) && Clean(members[k])
    case Array(items) => forall i :: 0 <= i < |items| ==> Clean(items[i])
    case _ => true
  }

  lemma {:induction false} AcceptedIsClean(nf: NumberFormat, tree: Tree)
    requires TreeShaped(tree) && Accepted(nf, tree)
    ensures Clean(Meaning(nf, tree))
    decreases tree
  {
    match tree
    case TArray(elements) => AcceptedElementsAreClean(nf, elements);
    case TObject(members) => AcceptedMembersAreClean(nf, members, map[], {});
    case _ =>
  }

  lemma {:induction false} AcceptedElementsAreClean(nf: NumberFormat, es: Elements)
    requires ElementsShaped(es) && ElementsAccepted(nf, es)
    ensures Clean(Array(ElementsMeaning(nf, es)))
    decreases es
  {
    hide Meaning, Accepted, TreeShaped;
    AcceptedIsClean(nf, es.tree);
    if es.More? { AcceptedElementsAreClean(nf, es.rest); }
  }

  lemma {:induction false} AcceptedMembersAreClean(
    nf: NumberFormat, ms: Members, before: map<string, Json>, taken: set<string>)
    requires MembersShaped(ms) && MembersAccepted(nf, ms, taken) && Clean(Object(before))
    ensures Clean(Object(MembersMeaning(nf, ms, before)))
    decreases ms
  {
    hide Meaning, Accepted, TreeShaped, Utf8.Valid, ItemsText;
    AcceptedIsClean(nf, ms.tree);
    var all := before[ItemsText(ms.key) := Meaning(nf, ms.tree)];
    assert Clean(Object(all));
    if ms.MoreMembers? { AcceptedMembersAreClean(nf, ms.rest, all, taken + {ItemsText(ms.key)}); }
  }

  lemma EntryIsClean(j: Json)
    requires Clean(j) && DecodeEntry(j).Some?
    ensures FiniteValue(DecodeEntry(j).value) && TextValid(DecodeEntry(j).value)
  {
    hide Utf8.Valid;
    assert Clean(j.members["value"]);
  }

  /** Whatever a document decodes to has valid UTF-8 keys and strings and finite
      numbers. */
  lemma DecodedIsClean(nf: NumberFormat, document: string)
    requires DecodeDocument(nf, document).Some?
    ensures AllFinite(DecodeDocument(nf, document).value) && AllTextValid(DecodeDocument(nf, document).value)
  {
    hide ParseDocument, Utf8.Valid, DecodeEntry, Meaning, Accepted, TreeShaped, FiniteValue, TextValid;
    var root := ParseDocument(nf, document).value;
    JsonSound.ParserIsGrammar(nf, document, root);
    var lead, tree, trail :|
      document == lead + TreeYield(tree) + trail && AllSpace(lead) && AllSpace(trail)
      && TreeShaped(tree) && Accepted(nf, tree) && root == Meaning(nf, tree);
    AcceptedIsClean(nf, tree);
    var entries := root.members["properties"];
    assert Clean(entries);
    forall k | k in entries.members
      ensures Utf8.Valid(k) && FiniteValue(DecodeEntry(entries.members[k]).value)
      ensures TextValid(DecodeEntry(entries.members[k]).value)
    {
      EntryIsClean(entries.members[k]);
    }
  }

  // Round trip

  function ReadFraction(s: string): Double {
    if |s| > 1 && s[1] == '.' && (forall i :: 2 <= i < |s| ==> IsDigit(s[i])) && Decimal.ValueOf(s[2..]) < TWO_TO_THE_64
    then Double(Decimal.ValueOf(s[2..])) else Double(0)
  }

  lemma FractionIsNumber(digits: string)
    requires JsonGrammar.Digits(digits)
    ensures IsNumber("0." + digits)
  {
    var n := NumberText(false, "0", Some(digits), None);
    assert NumberYield(n) == "0." + digits;
    assert NumberShaped(n);
  }

  lemma FractionReadsBack(d: Double)
    ensures IsNumber("0." + Decimal.Digits(d.bits)) && ReadFraction("0." + Decimal.Digits(d.bits)) == d
    ensures "0." + Decimal.Digits(d.bits) != "1"
  {
    hide Decimal.Digits, Decimal.ValueOf, IsNumber;
    var digits := Decimal.Digits(d.bits);
    Decimal.ValueOfDigits(d.bits);
    FractionIsNumber(digits);
    assert ("0." + digits)[2..] == digits;
  }

  function ShowBits(d: Double): string {
    if d == ONE then "1" else "0." + Decimal.Digits(d.bits)
  }

  function ReadBits(s: string): Double {
    if s == "1" then ONE else ReadFraction(s)
  }

  lemma BitsReadBack(d: Double)
    ensures IsNumber(ShowBits(d)) && ReadBits(ShowBits(d)) == d
  {
    hide ReadFraction, IsNumber, Decimal.Digits;
    if d == ONE { OneIsNumber(); } else { FractionReadsBack(d); }
  }

  lemma DigitsReadFinite(n: nat)
    ensures IsFinite(ReadBits(Decimal.Digits(n)))
  {
    var s := Decimal.Digits(n);
    hide Decimal.Digits, Decimal.ValueOf;
    assert |s| > 1 ==> '0' <= s[1] <= '9';
  }

  /** Some way of printing and reading numbers is faithful. */
  lemma SomeFormatIsFaithful()
    ensures exists nf :: Faithful(nf)
  {
    hide ShowBits, ReadBits, IsNumber, IsFinite, Decimal.Digits;
    var nf := NumberFormat(ShowBits, ReadBits);
    forall d ensures IsNumber(nf.show(d)) && nf.strtod(nf.show(d)) == d { BitsReadBack(d); }
    forall n: nat ensures IsFinite(nf.strtod(Decimal.Digits(n))) { DigitsReadFinite(n); }
    OneReadsAsOne();
    assert Faithful(nf);
  }

  lemma OneReadsAsOne()
    ensures ReadBits("1") == ONE
  {
  }

  lemma EntriesDecode(properties: Properties)
    requires AllFinite(properties)
    ensures DecodeEntries(JsonOf(properties, properties.Keys)) == Some(properties)
  {
    hide EntryJson, DecodeEntry, FiniteValue;
    var members := JsonOf(properties, properties.Keys);
    forall k | k in properties ensures DecodeEntry(members[k]) == Some(properties[k]) {
      EntryDecodes(properties[k]);
    }
    assert (map k | k in members :: DecodeEntry(members[k]).value) == properties;
  }

  lemma DocumentDecodes(nf: NumberFormat, ref: CollectionRef, properties: Properties, revision: nat)
    requires AllFinite(properties)
    ensures DecodeRoot(DocumentJson(nf, ref, properties, revision)) == Some(properties)
  {
    EntriesDecode(properties);
    hide Decimal.Digits, Revision.DescribeTarget, JsonOf, DecodeEntries, FiniteValue;
    var m := DocumentJson(nf, ref, properties, revision).members;
    assert m.Keys == ROOT_FIELDS;
  }

  /** A written document reads back as its properties, or, when something in it is
      not valid UTF-8, not at all. */
  lemma DocumentReads(nf: NumberFormat, ref: CollectionRef, properties: Properties, revision: nat)
    requires Faithful(nf) && revision < TWO_TO_THE_64 && AllFinite(properties)
    ensures DecodeDocument(nf, DocumentText(nf, ref, properties, revision))
         == if Utf8.Valid(Revision.DescribeTarget(ref.target)) && Utf8.Valid(ref.collection) && AllTextValid(properties)
            then Some(properties) else None
  {
    hide Faithful, ParseDocument, DecodeRoot, DocumentText, AllTextValid, Utf8.Valid, Revision.DescribeTarget,
         AllFinite, TreeShaped, TreeYield, Accepted, Meaning, DocumentTree, DocumentJson;
    DocumentStands(nf, ref, properties, revision);
    DocumentDecodes(nf, ref, properties, revision);
    JsonComplete.DocumentComplete(nf, "", DocumentTree(nf, ref, properties, revision), "");
    var text := DocumentText(nf, ref, properties, revision);
    assert "" + text + "" == text;
  }

  /** A document reads back as exactly the properties it was written from if and
      only if their numbers are finite and everything written in it is valid UTF-8:
      keys, strings, the collection's name and the target's description. */
  lemma RoundTrip(nf: NumberFormat, ref: CollectionRef, properties: Properties, revision: nat)
    requires Faithful(nf) && revision < TWO_TO_THE_64
    ensures DecodeDocument(nf, DocumentText(nf, ref, properties, revision)) == Some(properties) <==>
              AllFinite(properties) && AllTextValid(properties)
              && Utf8.Valid(Revision.DescribeTarget(ref.target)) && Utf8.Valid(ref.collection)
  {
    hide Faithful, DecodeDocument, DocumentText, AllTextValid, Utf8.Valid, Revision.DescribeTarget, AllFinite;
    var text := DocumentText(nf, ref, properties, revision);
    if DecodeDocument(nf, text) == Some(properties) { DecodedIsClean(nf, text); }
    if AllFinite(properties) { DocumentReads(nf, ref, properties, revision); }
  }
}
