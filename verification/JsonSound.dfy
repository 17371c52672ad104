/** Soundness: whatever the parser accepts derives from the grammar, with valid
    UTF-8, finite numbers and distinct keys. */
module JsonSound {
  import opened Types
  import opened Hexadecimal
  import opened JsonGrammar
  import opened JsonParse
  import opened JsonComplete
  import Utf8

  lemma Join(t: string, a: nat, b: nat, c: nat)
    requires a <= b <= c <= |t|
    ensures t[a..c] == t[a..b] + t[b..c]
  {
  }

  lemma One(t: string, p: nat)
    requires p < |t|
    ensures t[p..p + 1] == [t[p]]
  {
  }

  lemma DigitsSound(t: string, p: nat)
    requires p < |t| && IsDigit(t[p])
    ensures SkipDigits(t, p) > p && Digits(t[p..SkipDigits(t, p)])
  {
  }

  lemma WholeSound(t: string, p: nat, e: nat) returns (negative: bool, whole: string)
    requires p < |t| && WholeEnd(t, p) == Some(e)
    ensures whole == "0" || (Digits(whole) && whole[0] != '0')
    ensures t[p..e] == (if negative then "-" else "") + whole
  {
    negative := t[p] == '-';
    var q := if negative then p + 1 else p;
    whole := t[q..e];
    Join(t, p, q, e);
    if t[q] == '0' { One(t, q); } else { DigitsSound(t, q); }
    if negative { One(t, p); }
  }

  lemma FractionSound(t: string, p: nat, e: nat) returns (f: Option<string>)
    requires p <= |t| && FractionEnd(t, p) == Some(e)
    ensures (f.Some? ==> Digits(f.value)) && t[p..e] == FractionYield(f)
  {
    if p < |t| && t[p] == '.' {
      DigitsSound(t, p + 1);
      One(t, p);
      Join(t, p, p + 1, e);
      f := Some(t[p + 1..e]);
    } else {
      f := None;
    }
  }

  lemma SignSound(t: string, p: nat, q: nat)
    requires p <= q <= |t| && (q == p || (q == p + 1 && (t[p] == '+' || t[p] == '-')))
    ensures t[p..q] == "" || t[p..q] == "+" || t[p..q] == "-"
  {
    if q == p + 1 { One(t, p); }
  }

  lemma ThreeParts(t: string, p: nat, q: nat, e: nat)
    requires p < q <= e <= |t|
    ensures t[p..e] == [t[p]] + t[p + 1..q] + t[q..e]
  {
  }

  lemma ExponentSound(t: string, p: nat, e: nat) returns (x: Option<Exponent>)
    requires p <= |t| && ExponentEnd(t, p) == Some(e)
    ensures x.Some? ==> (x.value.mark == 'e' || x.value.mark == 'E')
                        && (x.value.sign == "" || x.value.sign == "+" || x.value.sign == "-") && Digits(x.value.digits)
    ensures t[p..e] == ExponentYield(x)
  {
    if p < |t| && (t[p] == 'e' || t[p] == 'E') {
      var q := if p + 1 < |t| && (t[p + 1] == '+' || t[p + 1] == '-') then p + 2 else p + 1;
      x := Some(Exponent(t[p], t[p + 1..q], t[q..e]));
      SignSound(t, p + 1, q);
      DigitsSound(t, q);
      hide SkipDigits;
      ThreeParts(t, p, q, e);
    } else {
      x := None;
    }
  }

  lemma NumberSound(t: string, p: nat, e: nat) returns (n: NumberText)
    requires p < |t| && NumberEnd(t, p) == Some(e)
    ensures NumberShaped(n) && t[p..e] == NumberYield(n)
  {
    hide WholeEnd, FractionEnd, ExponentEnd, Digits;
    var w := WholeEnd(t, p).value;
    var f := FractionEnd(t, w).value;
    var negative, whole := WholeSound(t, p, w);
    var fraction := FractionSound(t, w, f);
    var exponent := ExponentSound(t, f, e);
    n := NumberText(negative, whole, fraction, exponent);
    Join(t, p, w, e);
    Join(t, w, f, e);
    assert t[p..w] + (t[w..f] + t[f..e]) == t[p..w] + t[w..f] + t[f..e];
  }

  lemma UnitSound(t: string, p: nat)
    requires p >= 2 && p <= |t| && t[p - 2] == BACKSLASH && t[p - 1] == 'u' && ParseUnit(t, p).Ok?
    ensures t[p - 2..p + 4] == [BACKSLASH, 'u'] + t[p..p + 4]
    ensures IsHex4(t[p..p + 4]) && ParseUnit(t, p).value == Hex4(t[p..p + 4])
  {
    Join(t, p - 2, p, p + 4);
    assert t[p - 2..p] == [BACKSLASH, 'u'];
    hide Hex4, IsHex4, HexDigit;
  }

  lemma EscapeSound(t: string, p: nat, r: Parsed<string>) returns (item: Item)
    requires 0 < p <= |t| && t[p - 1] == BACKSLASH && r == ParseEscape(t, p) && r.Ok?
    ensures ItemShaped(item) && !item.Raw? && ItemText(item) == r.value && t[p - 1..r.next] == ItemYield(item)
  {
    hide Hex4, HexDigit, Utf8.Encode;
    if Unescaped(t[p]).Some? {
      item := Escape(t[p]);
      assert t[p - 1..p + 1] == [BACKSLASH, t[p]];
    } else {
      UnitSound(t, p + 1);
      var unit := ParseUnit(t, p + 1);
      if IsHighSurrogate(unit.value) {
        AtIndex(t, p + 5, [BACKSLASH, 'u']);
        UnitSound(t, p + 7);
        hide IsHex4;
        item := Pair(t[p + 1..p + 5], t[p + 7..p + 11]);
        Join(t, p - 1, p + 5, p + 11);
        var u := [BACKSLASH, 'u'];
        assert u + t[p + 1..p + 5] + (u + t[p + 7..p + 11]) == u + t[p + 1..p + 5] + u + t[p + 7..p + 11];
      } else {
        hide IsHex4;
        item := Unit(t[p + 1..p + 5]);
      }
    }
  }

  lemma {:induction false} BodySound(t: string, p: nat, out: string, r: Parsed<string>) returns (items: seq<Item>)
    requires p <= |t| && r == StringBody(t, p, out) && r.Ok?
    ensures ItemsShaped(items) && r.value == out + ItemsText(items) && Utf8.Valid(r.value)
    ensures t[p..r.next] == ItemsYield(items) + [QUOTE]
    decreases |t| - p
  {
    hide Utf8.Valid, ParseEscape, ItemText, ItemYield, ItemShaped;
    One(t, p);
    if t[p] == QUOTE {
      items := [];
      assert ItemsYield(items) + [QUOTE] == [QUOTE] && out + "" == out;
    } else if t[p] != BACKSLASH {
      var rest := BodySound(t, p + 1, out + [t[p]], r);
      RawItem(t[p]);
      items := [Raw(t[p])] + rest;
      ConsItem(t, p, p + 1, r.next, Raw(t[p]), rest, out);
    } else {
      var e := ParseEscape(t, p + 1);
      var item := EscapeSound(t, p + 1, e);
      var rest := BodySound(t, e.next, out + e.value, r);
      items := [item] + rest;
      ConsItem(t, p, e.next, r.next, item, rest, out);
    }
  }

  lemma RawItem(c: char)
    requires c >= ' ' && c != QUOTE && c != BACKSLASH
    ensures ItemShaped(Raw(c)) && ItemText(Raw(c)) == [c] && ItemYield(Raw(c)) == [c]
  {
  }

  lemma ConsItem(t: string, p: nat, q: nat, e: nat, item: Item, rest: seq<Item>, out: string)
    requires p <= q <= e <= |t| && ItemShaped(item) && ItemsShaped(rest)
    requires t[p..q] == ItemYield(item) && t[q..e] == ItemsYield(rest) + [QUOTE]
    ensures ItemsShaped([item] + rest)
    ensures t[p..e] == ItemsYield([item] + rest) + [QUOTE]
    ensures out + ItemText(item) + ItemsText(rest) == out + ItemsText([item] + rest)
  {
    hide ItemText, ItemYield, ItemShaped;
    Join(t, p, q, e);
    assert ([item] + rest)[1..] == rest;
    assert ItemYield(item) + (ItemsYield(rest) + [QUOTE]) == ItemsYield([item] + rest) + [QUOTE];
  }

  lemma StringSound(t: string, p: nat, r: Parsed<string>) returns (items: seq<Item>)
    requires p <= |t| && r == ParseString(t, p) && r.Ok?
    ensures ItemsShaped(items) && r.value == ItemsText(items) && Utf8.Valid(r.value)
    ensures t[p..r.next] == StringYield(items)
  {
    hide StringBody, Utf8.Valid, ItemsText, ItemsYield;
    items := BodySound(t, p + 1, "", r);
    One(t, p);
    Join(t, p, p + 1, r.next);
    assert [QUOTE] + (ItemsYield(items) + [QUOTE]) == StringYield(items);
    assert "" + ItemsText(items) == ItemsText(items);
  }

  /** The tree derives what was read between two cursors. */
  predicate Read(nf: NumberFormat, t: string, p: nat, tree: Tree, r: Parsed<Json>) {
    r.Ok? && p <= r.next <= |t| && TreeShaped(tree) && Accepted(nf, tree) && r.value == Meaning(nf, tree)
    && t[p..r.next] == TreeYield(tree)
  }

  lemma LiteralSound(nf: NumberFormat, t: string, p: nat, tree: Tree, r: Parsed<Json>)
    requires tree.TNull? || tree.TTrue? || tree.TFalse?
    requires At(t, p, TreeYield(tree)) && r == Ok(Meaning(nf, tree), p + |TreeYield(tree)|)
    ensures Read(nf, t, p, tree, r)
  {
  }

  lemma {:induction false} TokenSound(nf: NumberFormat, t: string, p: nat, r: Parsed<Json>) returns (tree: Tree)
    requires p < |t| && r == ParseToken(nf, t, p) && r.Ok?
    ensures Read(nf, t, p, tree, r)
    decreases |t| - p, 2
  {
    hide NumberEnd, ParseString, Utf8.Valid, ItemsText, ItemsYield, NumberYield, ParseObject, ParseArray;
    var c := t[p];
    if c == '{' {
      tree := ObjectSound(nf, t, p, r);
    } else if c == '[' {
      tree := ArraySound(nf, t, p, r);
    } else if c == QUOTE {
      var items := StringSound(t, p, ParseString(t, p));
      tree := TString(items);
    } else if At(t, p, "true") {
      tree := TTrue;
      LiteralSound(nf, t, p, tree, r);
    } else if At(t, p, "false") {
      tree := TFalse;
      LiteralSound(nf, t, p, tree, r);
    } else if At(t, p, "null") {
      tree := TNull;
      LiteralSound(nf, t, p, tree, r);
    } else {
      var n := NumberSound(t, p, NumberEnd(t, p).value);
      tree := TNumber(n);
    }
  }

  /** A value with the white space before it. */
  lemma {:induction false} ValueSound(nf: NumberFormat, t: string, p: nat, r: Parsed<Json>)
    returns (lead: string, tree: Tree)
    requires p <= |t| && r == ParseValue(nf, t, p) && r.Ok?
    ensures AllSpace(lead) && p + |lead| < |t| && t[p..p + |lead|] == lead && Read(nf, t, p + |lead|, tree, r)
    decreases |t| - p, 3
  {
    hide ParseToken;
    var q := SkipSpace(t, p);
    lead := t[p..q];
    tree := TokenSound(nf, t, q, r);
  }

  lemma EmptyArraySound(nf: NumberFormat, t: string, p: nat, q: nat, r: Parsed<Json>)
    requires p < q < |t| && t[p] == '[' && t[q] == ']' && AllSpace(t[p + 1..q]) && r == Ok(Array([]), q + 1)
    ensures Read(nf, t, p, TEmptyArray(t[p + 1..q]), r)
  {
    hide AllSpace;
    One(t, p);
    One(t, q);
    Join(t, p, p + 1, q + 1);
    Join(t, p + 1, q, q + 1);
    assert "[" + (t[p + 1..q] + "]") == TreeYield(TEmptyArray(t[p + 1..q]));
  }

  /** An array around sound elements. */
  lemma ArrayBuilt(nf: NumberFormat, t: string, p: nat, es: Elements, r: Parsed<Json>)
    requires p < |t| && t[p] == '[' && r.Ok? && p + 1 <= r.next <= |t|
    requires ElementsShaped(es) && ElementsAccepted(nf, es) && r.value == Array([] + ElementsMeaning(nf, es))
    requires t[p + 1..r.next] == ElementsYield(es)
    ensures Read(nf, t, p, TArray(es), r)
  {
    hide ElementsMeaning, ElementsAccepted, ElementsShaped, ElementsYield;
    One(t, p);
    Join(t, p, p + 1, r.next);
    assert [] + ElementsMeaning(nf, es) == ElementsMeaning(nf, es);
  }

  lemma {:induction false} ArraySound(nf: NumberFormat, t: string, p: nat, r: Parsed<Json>) returns (tree: Tree)
    requires p < |t| && t[p] == '[' && r == ParseArray(nf, t, p) && r.Ok?
    ensures Read(nf, t, p, tree, r)
    decreases |t| - p, 1
  {
    hide SkipSpace, ParseElements, Read, ElementsMeaning, ElementsAccepted, ElementsShaped, ElementsYield, AllSpace;
    var q := SkipSpace(t, p + 1);
    if q < |t| && t[q] == ']' {
      tree := TEmptyArray(t[p + 1..q]);
      EmptyArraySound(nf, t, p, q, r);
    } else {
      SameElements(nf, t, p + 1);
      var es := ElementsSound(nf, t, p + 1, [], r);
      tree := TArray(es);
      ArrayBuilt(nf, t, p, es, r);
    }
  }

  lemma {:induction false} ElementsSound(nf: NumberFormat, t: string, p: nat, before: seq<Json>, r: Parsed<Json>)
    returns (es: Elements)
    requires p <= |t| && r == ParseElements(nf, t, p, before) && r.Ok?
    ensures ElementsShaped(es) && ElementsAccepted(nf, es) && r.value == Array(before + ElementsMeaning(nf, es))
    ensures t[p..r.next] == ElementsYield(es)
    decreases |t| - p, 4
  {
    hide SkipSpace, ParseValue, TreeYield, TreeShaped, Accepted, Meaning, AllSpace;
    var value := ParseValue(nf, t, p);
    var lead, tree := ValueSound(nf, t, p, value);
    var end := SkipSpace(t, value.next);
    var trail := t[value.next..end];
    One(t, end);
    if t[end] == ']' {
      es := Last(lead, tree, trail);
      ElementsJoin(t, p, es, value.next, end, end + 1);
    } else {
      var all := before + [value.value];
      var rest := ElementsSound(nf, t, end + 1, all, r);
      es := More(lead, tree, trail, rest);
      ElementsJoin(t, p, es, value.next, end, r.next);
      MeaningAppended(nf, before, es);
    }
  }

  lemma MeaningAppended(nf: NumberFormat, before: seq<Json>, es: Elements)
    requires ElementsShaped(es) && es.More?
    ensures before + [Meaning(nf, es.tree)] + ElementsMeaning(nf, es.rest) == before + ElementsMeaning(nf, es)
  {
    hide Meaning, TreeShaped;
  }

  lemma ElementsJoin(t: string, p: nat, es: Elements, v: nat, end: nat, next: nat)
    requires p + |es.lead| <= v <= end < next <= |t|
    requires t[p..p + |es.lead|] == es.lead && t[p + |es.lead|..v] == TreeYield(es.tree) && t[v..end] == es.trail
    requires t[end] == if es.Last? then ']' else ','
    requires if es.Last? then next == end + 1 else t[end + 1..next] == ElementsYield(es.rest)
    ensures t[p..next] == ElementsYield(es)
  {
    hide TreeYield;
    Join(t, p, v, next);
    Join(t, p, p + |es.lead|, v);
    Join(t, v, end + 1, next);
    Join(t, v, end, end + 1);
    One(t, end);
  }

  lemma EmptyObjectSound(nf: NumberFormat, t: string, p: nat, q: nat, r: Parsed<Json>)
    requires p < q < |t| && t[p] == '{' && t[q] == '}' && AllSpace(t[p + 1..q]) && r == Ok(Object(map[]), q + 1)
    ensures Read(nf, t, p, TEmptyObject(t[p + 1..q]), r)
  {
    One(t, p);
    One(t, q);
    Join(t, p, p + 1, q + 1);
    Join(t, p + 1, q, q + 1);
    assert "{" + (t[p + 1..q] + "}") == TreeYield(TEmptyObject(t[p + 1..q]));
    assert Meaning(nf, TEmptyObject(t[p + 1..q])) == Object(map[]);
  }

  lemma {:induction false} ObjectSound(nf: NumberFormat, t: string, p: nat, r: Parsed<Json>) returns (tree: Tree)
    requires p < |t| && t[p] == '{' && r == ParseObject(nf, t, p) && r.Ok?
    ensures Read(nf, t, p, tree, r)
    decreases |t| - p, 1
  {
    hide SkipSpace, ParseMembers;
    var q := SkipSpace(t, p + 1);
    One(t, p);
    if q < |t| && t[q] == '}' {
      tree := TEmptyObject(t[p + 1..q]);
      EmptyObjectSound(nf, t, p, q, r);
    } else {
      hide MembersMeaning, MembersAccepted, MembersShaped, MembersYield, TreeYield, TreeShaped, Accepted, Meaning;
      SameMembers(nf, t, p + 1);
      var none: map<string, Json> := map[];
      assert none.Keys == {};
      var ms := MembersSound(nf, t, p + 1, none, r);
      Join(t, p, p + 1, r.next);
      tree := TObject(ms);
      ObjectMeaning(nf, ms);
      ObjectYields(ms);
    }
  }

  /** What a name consists of. */
  lemma NameOpened(t: string, p: nat, name: Parsed<string>) returns (k: nat, key: Parsed<string>, colon: nat)
    requires p <= |t| && name == NameAt(t, p) && name.Ok?
    ensures p <= k <= |t| && k == SkipSpace(t, p) && key == ParseString(t, k) && key.Ok? && key.value == name.value
    ensures key.next <= colon < |t| && colon == SkipSpace(t, key.next) && t[colon] == ':' && name.next == colon + 1
  {
    hide SkipSpace, ParseString, AllSpace;
    k := SkipSpace(t, p);
    key := ParseString(t, k);
    colon := SkipSpace(t, key.next);
  }

  /** What a successful turn of the member loop found. */
  lemma MembersOpened(nf: NumberFormat, t: string, p: nat, before: map<string, Json>, r: Parsed<Json>)
    returns (k: nat, key: Parsed<string>, colon: nat, value: Parsed<Json>, end: nat)
    requires p <= |t| && r == ParseMembers(nf, t, p, before) && r.Ok?
    ensures p <= k <= |t| && k == SkipSpace(t, p) && key == ParseString(t, k) && key.Ok? && key.value !in before
    ensures key.next <= colon < |t| && colon == SkipSpace(t, key.next) && t[colon] == ':'
    ensures value == ParseValue(nf, t, colon + 1) && value.Ok?
    ensures value.next <= end < |t| && end == SkipSpace(t, value.next) && (t[end] == '}' || t[end] == ',')
    ensures r == if t[end] == '}' then Ok(Object(before[key.value := value.value]), end + 1)
                 else ParseMembers(nf, t, end + 1, before[key.value := value.value])
  {
    hide SkipSpace, ParseValue, ParseString, AllSpace, ParseMembers, NameAt;
    MembersFromName(nf, t, p, before);
    k, key, colon := NameOpened(t, p, NameAt(t, p));
    value := ParseValue(nf, t, colon + 1);
    end := SkipSpace(t, value.next);
  }

  /** What a list that starts with a sound member means. */
  lemma MemberBuilt(nf: NumberFormat, ms: Members, before: map<string, Json>, key: string, value: Json)
    requires AllSpace(ms.lead) && AllSpace(ms.mid) && AllSpace(ms.inner) && AllSpace(ms.trail)
    requires ItemsShaped(ms.key) && ItemsText(ms.key) == key && Utf8.Valid(key) && key !in before
    requires TreeShaped(ms.tree) && Accepted(nf, ms.tree) && Meaning(nf, ms.tree) == value
    requires ms.MoreMembers? ==> MembersShaped(ms.rest) && MembersAccepted(nf, ms.rest, before[key := value].Keys)
    ensures MembersShaped(ms) && MembersAccepted(nf, ms, before.Keys)
    ensures MembersMeaning(nf, ms, before)
         == if ms.LastMember? then before[key := value] else MembersMeaning(nf, ms.rest, before[key := value])
  {
    hide TreeShaped, Accepted, Meaning, ItemsText, ItemsShaped, Utf8.Valid, AllSpace;
    assert before[key := value].Keys == before.Keys + {key};
  }

  lemma {:induction false} MembersSound(nf: NumberFormat, t: string, p: nat, before: map<string, Json>, r: Parsed<Json>)
    returns (ms: Members)
    requires p <= |t| && r == ParseMembers(nf, t, p, before) && r.Ok?
    ensures MembersShaped(ms) && MembersAccepted(nf, ms, before.Keys)
    ensures r.value == Object(MembersMeaning(nf, ms, before))
    ensures t[p..r.next] == MembersYield(ms)
    decreases |t| - p, 0
  {
    hide SkipSpace, ParseValue, ParseString, TreeYield, TreeShaped, Accepted, Meaning, ItemsText, ItemsYield,
         ItemsShaped, Utf8.Valid, AllSpace, ParseMembers, MembersShaped, MembersAccepted, MembersMeaning,
         MembersYield, StringYield;
    var k, key, colon, value, end := MembersOpened(nf, t, p, before, r);
    var items := StringSound(t, k, key);
    var inner, tree := ValueSound(nf, t, colon + 1, value);
    if t[end] == '}' {
      ms := LastMember(t[p..k], items, t[key.next..colon], inner, tree, t[value.next..end]);
    } else {
      var rest := MembersSound(nf, t, end + 1, before[key.value := value.value], r);
      ms := MoreMembers(t[p..k], items, t[key.next..colon], inner, tree, t[value.next..end], rest);
    }
    MemberBuilt(nf, ms, before, key.value, value.value);
    MembersJoin(t, p, ms, k, key.next, colon, value.next, end, r.next);
  }

  lemma ObjectYields(ms: Members)
    ensures TreeYield(TObject(ms)) == "{" + MembersYield(ms)
  {
    hide MembersYield;
  }

  lemma MembersJoin(t: string, p: nat, ms: Members, k: nat, c: nat, colon: nat, v: nat, end: nat, next: nat)
    requires p <= k <= c <= colon && colon + 1 + |ms.inner| <= v <= end < next <= |t|
    requires t[p..k] == ms.lead && t[k..c] == StringYield(ms.key) && t[c..colon] == ms.mid && t[colon] == ':'
    requires t[colon + 1..colon + 1 + |ms.inner|] == ms.inner && t[colon + 1 + |ms.inner|..v] == TreeYield(ms.tree)
    requires t[v..end] == ms.trail && t[end] == if ms.LastMember? then '}' else ','
    requires if ms.LastMember? then next == end + 1 else t[end + 1..next] == MembersYield(ms.rest)
    ensures t[p..next] == MembersYield(ms)
  {
    hide TreeYield, StringYield;
    One(t, end);
    var rest := if ms.LastMember? then "" else MembersYield(ms.rest);
    var i := colon + 1 + |ms.inner|;
    TextJoin(t, p, ms.lead, StringYield(ms.key), ms.mid, ms.inner, TreeYield(ms.tree), ms.trail, [t[end]], rest,
             k, c, colon, i, v, end, next);
  }

  lemma TextJoin(
    t: string, p: nat, lead: string, key: string, mid: string, inner: string, tree: string, trail: string, sep: string,
    rest: string, k: nat, c: nat, colon: nat, i: nat, v: nat, end: nat, next: nat)
    requires p <= k <= c <= colon < i <= v <= end < next <= |t|
    requires t[p..k] == lead && t[k..c] == key && t[c..colon] == mid && t[colon] == ':'
    requires t[colon + 1..i] == inner && t[i..v] == tree && t[v..end] == trail && t[end..end + 1] == sep
    requires t[end + 1..next] == rest
    ensures t[p..next] == (lead + key) + ((mid + [':']) + ((inner + tree) + ((trail + sep) + rest)))
  {
    TwoParts(t, p, k, c, lead, key);
    One(t, colon);
    TwoParts(t, c, colon, colon + 1, mid, [':']);
    TwoParts(t, colon + 1, i, v, inner, tree);
    TwoParts(t, v, end, end + 1, trail, sep);
    TwoParts(t, v, end + 1, next, trail + sep, rest);
    TwoParts(t, colon + 1, v, next, inner + tree, (trail + sep) + rest);
    TwoParts(t, c, colon + 1, next, mid + [':'], (inner + tree) + ((trail + sep) + rest));
    TwoParts(t, p, c, next, lead + key, (mid + [':']) + ((inner + tree) + ((trail + sep) + rest)));
  }

  lemma TwoParts(t: string, a: nat, b: nat, c: nat, x: string, y: string)
    requires a <= b <= c <= |t| && t[a..b] == x && t[b..c] == y
    ensures t[a..c] == x + y
  {
    Join(t, a, b, c);
  }

  lemma DocumentSound(nf: NumberFormat, t: string)
    ensures ParseDocument(nf, t).Some? ==> Derives(nf, t, ParseDocument(nf, t).value)
  {
    hide ParseValue, SkipSpace, TreeYield, TreeShaped, Accepted, Meaning;
    if ParseDocument(nf, t).Some? {
      var q := SkipSpace(t, 0);
      var value := ParseValue(nf, t, q);
      var lead, tree := ValueSound(nf, t, q, value);
      var all, trail := t[0..q] + lead, t[value.next..|t|];
      var v := q + |lead|;
      TwoParts(t, 0, q, v, t[0..q], lead);
      TwoParts(t, 0, v, value.next, all, TreeYield(tree));
      TwoParts(t, 0, value.next, |t|, all + TreeYield(tree), trail);
      assert t[0..|t|] == t;
      assert AllSpace(all);
      hide AllSpace;
      assert t == all + TreeYield(tree) + trail;
    }
  }

  /** The parser accepts a text with a value exactly when the text derives that
      value: the grammar of RFC 8259, with valid UTF-8, no lone surrogates, finite
      numbers and distinct keys. */
  lemma ParserIsGrammar(nf: NumberFormat, t: string, value: Json)
    ensures ParseDocument(nf, t) == Some(value) <==> Derives(nf, t, value)
  {
    hide ParseDocument, TreeYield, TreeShaped, Accepted, Meaning;
    DocumentSound(nf, t);
    forall lead, tree, trail |
      t == lead + TreeYield(tree) + trail && AllSpace(lead) && AllSpace(trail)
      && TreeShaped(tree) && Accepted(nf, tree) && value == Meaning(nf, tree)
      ensures ParseDocument(nf, t) == Some(value)
    {
      DocumentComplete(nf, lead, tree, trail);
    }
  }
}
