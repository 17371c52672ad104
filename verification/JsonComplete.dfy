/** Completeness: wherever the text holds a tree of the grammar, the parser reads
    exactly that tree, and fails exactly when the tree is not acceptable. */
module JsonComplete {
  import opened Types
  import opened Hexadecimal
  import opened JsonGrammar
  import opened JsonParse
  import Utf8

  lemma AtConcat(t: string, p: nat, a: string, b: string)
    ensures At(t, p, a + b) <==> At(t, p, a) && At(t, p + |a|, b)
  {
    if At(t, p, a + b) {
      assert t[p..p + |a|] == t[p..p + |a + b|][..|a|];
      assert t[p + |a|..p + |a| + |b|] == t[p..p + |a + b|][|a|..];
    }
    if At(t, p, a) && At(t, p + |a|, b) {
      assert t[p..p + |a| + |b|] == t[p..p + |a|] + t[p + |a|..p + |a| + |b|];
    }
  }

  lemma AtIndex(t: string, p: nat, s: string)
    requires At(t, p, s)
    ensures forall i :: p <= i < p + |s| ==> t[i] == s[i - p]
  {
    forall i | p <= i < p + |s| ensures t[i] == s[i - p] {
      assert t[p..p + |s|][i - p] == t[i];
    }
  }

  lemma SkipSpaceOver(t: string, p: nat, s: string)
    requires AllSpace(s) && At(t, p, s) && (p + |s| == |t| || !IsSpace(t[p + |s|]))
    ensures SkipSpace(t, p) == p + |s|
  {
    var q := SkipSpace(t, p);
    AtIndex(t, p, s);
    assert forall i :: p <= i < q ==> t[i] == t[p..q][i - p];
    hide SkipSpace;
  }

  lemma SkipSpaceHere(t: string, p: nat)
    requires p <= |t|
    ensures SkipSpace(t, SkipSpace(t, p)) == SkipSpace(t, p)
  {
  }

  lemma SkipDigitsOver(t: string, p: nat, s: string)
    requires Digits(s) && At(t, p, s) && (p + |s| == |t| || !IsDigit(t[p + |s|]))
    ensures SkipDigits(t, p) == p + |s|
  {
    AtIndex(t, p, s);
    hide SkipDigits;
  }

  /** The text ends at `e`, or goes on with something that is not part of a number. */
  predicate Boundary(t: string, e: nat) {
    e >= |t| || !(IsDigit(t[e]) || t[e] == '.' || t[e] == 'e' || t[e] == 'E')
  }

  lemma WholeComplete(t: string, p: nat, n: NumberText)
    requires NumberShaped(n) && At(t, p, WholeYield(n))
    requires p + |WholeYield(n)| == |t| || !IsDigit(t[p + |WholeYield(n)|])
    ensures WholeEnd(t, p) == Some(p + |WholeYield(n)|)
  {
    var sign := if n.negative then "-" else "";
    AtConcat(t, p, sign, n.whole);
    AtIndex(t, p, WholeYield(n));
    if n.whole != "0" {
      assert IsDigit(n.whole[0]);
      SkipDigitsOver(t, p + |sign|, n.whole);
    }
  }

  lemma FractionComplete(t: string, p: nat, f: Option<string>)
    requires (f.Some? ==> Digits(f.value)) && At(t, p, FractionYield(f))
    requires var e := p + |FractionYield(f)|; e == |t| || !(IsDigit(t[e]) || t[e] == '.')
    ensures FractionEnd(t, p) == Some(p + |FractionYield(f)|)
  {
    if f.Some? {
      AtConcat(t, p, ".", f.value);
      AtIndex(t, p, FractionYield(f));
      assert IsDigit(f.value[0]);
      SkipDigitsOver(t, p + 1, f.value);
    }
  }

  lemma ExponentComplete(t: string, p: nat, n: NumberText)
    requires NumberShaped(n) && At(t, p, ExponentYield(n.exponent)) && Boundary(t, p + |ExponentYield(n.exponent)|)
    ensures ExponentEnd(t, p) == Some(p + |ExponentYield(n.exponent)|)
  {
    if n.exponent.Some? {
      SomeExponentComplete(t, p, n.exponent.value);
    }
  }

  lemma SomeExponentComplete(t: string, p: nat, e: Exponent)
    requires (e.mark == 'e' || e.mark == 'E') && (e.sign == "" || e.sign == "+" || e.sign == "-") && Digits(e.digits)
    requires At(t, p, ExponentYield(Some(e))) && Boundary(t, p + |ExponentYield(Some(e))|)
    ensures ExponentEnd(t, p) == Some(p + |ExponentYield(Some(e))|)
  {
    hide SkipDigits;
    var y := ExponentYield(Some(e));
    assert y == [e.mark] + e.sign + e.digits;
    AtConcat(t, p, [e.mark] + e.sign, e.digits);
    AtIndex(t, p, y);
    assert t[p] == e.mark && IsDigit(t[p + 1 + |e.sign|]);
    assert e.sign != "" ==> t[p + 1] == e.sign[0];
    SkipDigitsOver(t, p + 1 + |e.sign|, e.digits);
    hide At, Boundary;
  }

  lemma FractionStart(t: string, p: nat, f: Option<string>)
    requires At(t, p, FractionYield(f))
    ensures if f.Some? then p < |t| && t[p] == '.' else FractionYield(f) == ""
  {
    if f.Some? { AtIndex(t, p, FractionYield(f)); }
  }

  lemma ExponentStart(t: string, p: nat, e: Option<Exponent>)
    requires At(t, p, ExponentYield(e))
    ensures if e.Some? then p < |t| && t[p] == e.value.mark else ExponentYield(e) == ""
  {
    if e.Some? { AtIndex(t, p, ExponentYield(e)); }
  }

  /** Where the parts of a number are. */
  lemma NumberParts(t: string, p: nat, n: NumberText)
    requires At(t, p, NumberYield(n))
    ensures var w, f, e := WholeYield(n), FractionYield(n.fraction), ExponentYield(n.exponent);
            && At(t, p, w) && At(t, p + |w|, f) && At(t, p + |w| + |f|, e)
            && |NumberYield(n)| == |w| + |f| + |e|
  {
    hide At, WholeYield, FractionYield, ExponentYield;
    var w, f, e := WholeYield(n), FractionYield(n.fraction), ExponentYield(n.exponent);
    AtConcat(t, p, w + f, e);
    AtConcat(t, p, w, f);
  }

  /** A shaped number has a non-empty integer part and a proper exponent mark. */
  lemma NumberMarks(n: NumberText)
    requires NumberShaped(n)
    ensures WholeYield(n) != "" && (n.fraction.Some? ==> Digits(n.fraction.value))
    ensures n.exponent.Some? ==> n.exponent.value.mark == 'e' || n.exponent.value.mark == 'E'
  {
  }

  /** The digits of a fraction end where the exponent or the boundary is. */
  lemma BeforeExponent(t: string, b: nat, n: NumberText)
    requires NumberShaped(n) && At(t, b, ExponentYield(n.exponent)) && Boundary(t, b + |ExponentYield(n.exponent)|)
    ensures b <= |t| && (b == |t| || !(IsDigit(t[b]) || t[b] == '.'))
  {
    ExponentStart(t, b, n.exponent);
    NumberMarks(n);
    hide NumberShaped, ExponentYield, Digits;
  }

  /** ... and those of the integer part before the fraction. */
  lemma BeforeFraction(t: string, a: nat, f: Option<string>)
    requires At(t, a, FractionYield(f)) && a + |FractionYield(f)| <= |t|
    requires var b := a + |FractionYield(f)|; b == |t| || !IsDigit(t[b])
    ensures a <= |t| && (a == |t| || !IsDigit(t[a]))
  {
    FractionStart(t, a, f);
    hide FractionYield;
  }

  lemma NumberComplete(t: string, p: nat, n: NumberText)
    requires NumberShaped(n) && At(t, p, NumberYield(n)) && Boundary(t, p + |NumberYield(n)|)
    ensures p < |t| && NumberEnd(t, p) == Some(p + |NumberYield(n)|)
  {
    hide WholeEnd, FractionEnd, ExponentEnd, NumberYield, NumberShaped, WholeYield, FractionYield, ExponentYield,
         Digits, Boundary, IsDigit;
    NumberParts(t, p, n);
    NumberMarks(n);
    var a := p + |WholeYield(n)|;
    var b := a + |FractionYield(n.fraction)|;
    assert p < |t|;
    hide At;
    BeforeExponent(t, b, n);
    BeforeFraction(t, a, n.fraction);
    WholeComplete(t, p, n);
    FractionComplete(t, a, n.fraction);
    ExponentComplete(t, b, n);
  }

  lemma UnitComplete(t: string, p: nat, code: string)
    requires IsHex4(code) && At(t, p, code)
    ensures ParseUnit(t, p) == Ok(Hex4(code), p + 4)
  {
  }

  lemma EscapeComplete(t: string, p: nat, item: Item)
    requires ItemShaped(item) && !item.Raw? && At(t, p, ItemYield(item))
    ensures p + 1 < |t| && t[p] == BACKSLASH
    ensures ParseEscape(t, p + 1) == Ok(ItemText(item), p + |ItemYield(item)|)
  {
    AtIndex(t, p, ItemYield(item));
    hide Hex4, HexDigit, IsHex4, Utf8.Encode;
    match item
    case Escape(c) =>
    case Unit(code) =>
      AtConcat(t, p, [BACKSLASH, 'u'], code);
      UnitComplete(t, p + 2, code);
    case Pair(high, low) =>
      PairComplete(t, p, high, low);
  }

  lemma PairComplete(t: string, p: nat, high: string, low: string)
    requires ItemShaped(Pair(high, low)) && At(t, p, ItemYield(Pair(high, low)))
    ensures p + 1 < |t| && ParseEscape(t, p + 1) == Ok(ItemText(Pair(high, low)), p + |ItemYield(Pair(high, low))|)
  {
    var u := [BACKSLASH, 'u'];
    AtIndex(t, p, ItemYield(Pair(high, low)));
    AtConcat(t, p, u + high + u, low);
    AtConcat(t, p, u + high, u);
    AtConcat(t, p, u, high);
    hide Hex4, HexDigit, Utf8.Encode;
    UnitComplete(t, p + 2, high);
    UnitComplete(t, p + 8, low);
    hide IsHex4;
  }

  /** The loop over a string's body reads the items up to the closing quote. */
  lemma {:induction false} BodyComplete(t: string, p: nat, items: seq<Item>, out: string)
    requires ItemsShaped(items) && At(t, p, ItemsYield(items) + [QUOTE])
    ensures p <= |t|
    ensures StringBody(t, p, out)
         == if Utf8.Valid(out + ItemsText(items))
            then Ok(out + ItemsText(items), p + |ItemsYield(items)| + 1) else Fail
    decreases |items|
  {
    hide ItemText, ItemYield, ItemShaped, ParseEscape, Utf8.Valid;
    if items == [] {
      AtIndex(t, p, [QUOTE]);
      assert ItemsYield(items) + [QUOTE] == [QUOTE];
      assert out + "" == out;
    } else {
      var first, rest := items[0], items[1..];
      var y := ItemYield(first);
      assert ItemsYield(items) + [QUOTE] == y + (ItemsYield(rest) + [QUOTE]);
      AtConcat(t, p, y, ItemsYield(rest) + [QUOTE]);
      BodyComplete(t, p + |y|, rest, out + ItemText(first));
      assert out + ItemText(first) + ItemsText(rest) == out + ItemsText(items);
      OneItem(t, p, first, out);
    }
  }

  lemma OneItem(t: string, p: nat, item: Item, out: string)
    requires ItemShaped(item) && At(t, p, ItemYield(item))
    ensures p < |t| && p + |ItemYield(item)| <= |t|
    ensures StringBody(t, p, out) == StringBody(t, p + |ItemYield(item)|, out + ItemText(item))
  {
    if item.Raw? {
      AtIndex(t, p, ItemYield(item));
    } else {
      EscapeComplete(t, p, item);
      hide ParseEscape, ItemText, ItemYield;
    }
  }

  lemma StringComplete(t: string, p: nat, items: seq<Item>)
    requires ItemsShaped(items) && At(t, p, StringYield(items))
    ensures p < |t|
    ensures ParseString(t, p)
         == if Utf8.Valid(ItemsText(items)) then Ok(ItemsText(items), p + |StringYield(items)|) else Fail
  {
    assert StringYield(items) == [QUOTE] + (ItemsYield(items) + [QUOTE]);
    AtConcat(t, p, [QUOTE], ItemsYield(items) + [QUOTE]);
    AtIndex(t, p, [QUOTE]);
    BodyComplete(t, p + 1, items, "");
    assert "" + ItemsText(items) == ItemsText(items);
    hide StringBody, Utf8.Valid, ItemsText, ItemsYield;
  }

  /** How a tree begins. */
  lemma {:induction false} TreeStart(tree: Tree)
    requires TreeShaped(tree)
    ensures TreeYield(tree) != "" && !IsSpace(TreeYield(tree)[0]) && TreeYield(tree)[0] != ']'
  {
    match tree
    case TNumber(n) => NumberStart(n);
    case _ => hide NumberYield, ItemsYield, ElementsYield, MembersYield;
  }

  lemma NumberStart(n: NumberText)
    requires NumberShaped(n)
    ensures NumberYield(n) != "" && (NumberYield(n)[0] == '-' || IsDigit(NumberYield(n)[0]))
  {
    assert n.whole == "0" || IsDigit(n.whole[0]);
    assert NumberYield(n)[0] == WholeYield(n)[0];
  }

  /** A value is read from the white space before it. */
  lemma ValueAfterSpace(nf: NumberFormat, t: string, p: nat, lead: string, tree: Tree)
    requires AllSpace(lead) && TreeShaped(tree) && At(t, p, lead + TreeYield(tree))
    ensures p + |lead| < |t| && SkipSpace(t, p) == p + |lead|
    ensures ParseValue(nf, t, p) == ParseToken(nf, t, p + |lead|)
    ensures t[p + |lead|] == TreeYield(tree)[0]
  {
    hide TreeYield, TreeShaped, ParseToken, SkipSpace, AllSpace;
    TreeStart(tree);
    AtConcat(t, p, lead, TreeYield(tree));
    AtIndex(t, p + |lead|, TreeYield(tree));
    assert t[p + |lead|] == TreeYield(tree)[0];
    hide At;
    SkipSpaceOver(t, p, lead);
  }

  /** The white space after a value, up to the separator. */
  lemma SpaceThen(t: string, p: nat, s: string, c: char)
    requires AllSpace(s) && At(t, p, s + [c]) && !IsSpace(c)
    ensures p + |s| < |t| && SkipSpace(t, p) == p + |s| && t[p + |s|] == c
  {
    AtConcat(t, p, s, [c]);
    AtIndex(t, p + |s|, [c]);
    SkipSpaceOver(t, p, s);
  }

  lemma SpaceThenIsBoundary(t: string, p: nat, s: string, c: char)
    requires AllSpace(s) && At(t, p, s + [c]) && (c == ',' || c == ']' || c == '}')
    ensures Boundary(t, p)
  {
    AtIndex(t, p, s + [c]);
  }

  /** What the parser makes of a tree at the cursor. */
  predicate ReadsTree(nf: NumberFormat, t: string, p: nat, tree: Tree)
    requires TreeShaped(tree)
  {
    p < |t| && ParseToken(nf, t, p) == if Accepted(nf, tree) then Ok(Meaning(nf, tree), p + |TreeYield(tree)|) else Fail
  }

  lemma LiteralComplete(nf: NumberFormat, t: string, p: nat, tree: Tree)
    requires (tree.TNull? || tree.TTrue? || tree.TFalse?) && At(t, p, TreeYield(tree))
    ensures ReadsTree(nf, t, p, tree)
  {
    AtIndex(t, p, TreeYield(tree));
    assert t[p] == TreeYield(tree)[0];
    hide ParseObject, ParseArray, ParseString, ParseNumber;
  }

  lemma NumberTokenComplete(nf: NumberFormat, t: string, p: nat, n: NumberText)
    requires NumberShaped(n) && At(t, p, NumberYield(n)) && Boundary(t, p + |NumberYield(n)|)
    ensures ReadsTree(nf, t, p, TNumber(n))
  {
    hide ParseObject, ParseArray, ParseString, NumberEnd, NumberYield, NumberShaped, Boundary;
    NumberStart(n);
    NumberComplete(t, p, n);
    AtIndex(t, p, NumberYield(n));
    assert t[p] == NumberYield(n)[0];
    assert t[p..p + |NumberYield(n)|] == NumberYield(n);
    hide At;
    assert !At(t, p, "true") && !At(t, p, "false") && !At(t, p, "null") by {
      NotLiteral(t, p, "true"); NotLiteral(t, p, "false"); NotLiteral(t, p, "null");
    }
  }

  lemma NotLiteral(t: string, p: nat, s: string)
    requires p < |t| && s != "" && t[p] != s[0]
    ensures !At(t, p, s)
  {
    if At(t, p, s) { AtIndex(t, p, s); }
  }

  lemma StringTokenComplete(nf: NumberFormat, t: string, p: nat, items: seq<Item>)
    requires ItemsShaped(items) && At(t, p, StringYield(items))
    ensures ReadsTree(nf, t, p, TString(items))
  {
    StringComplete(t, p, items);
    AtIndex(t, p, StringYield(items));
    hide ParseObject, ParseArray, ParseString, ParseNumber, ItemsText, ItemsYield, ItemsShaped, Utf8.Valid;
  }

  lemma EmptyArrayComplete(nf: NumberFormat, t: string, p: nat, pad: string)
    requires AllSpace(pad) && At(t, p, TreeYield(TEmptyArray(pad)))
    ensures ReadsTree(nf, t, p, TEmptyArray(pad))
  {
    assert TreeYield(TEmptyArray(pad)) == "[" + (pad + "]");
    EmptyArrayParses(nf, t, p, pad);
    hide ParseToken;
  }

  lemma EmptyArrayParses(nf: NumberFormat, t: string, p: nat, pad: string)
    requires AllSpace(pad) && At(t, p, "[" + (pad + "]"))
    ensures p < |t| && ParseToken(nf, t, p) == Ok(Array([]), p + 2 + |pad|)
  {
    hide ParseElements, ParseMembers, ParseString, ParseNumber, SkipSpace, AllSpace;
    AtConcat(t, p, "[", pad + "]");
    AtIndex(t, p, "[");
    hide At;
    SpaceThen(t, p + 1, pad, ']');
    assert t[p] == '[';
  }

  lemma EmptyObjectComplete(nf: NumberFormat, t: string, p: nat, pad: string)
    requires AllSpace(pad) && At(t, p, TreeYield(TEmptyObject(pad)))
    ensures ReadsTree(nf, t, p, TEmptyObject(pad))
  {
    assert TreeYield(TEmptyObject(pad)) == "{" + (pad + "}");
    EmptyObjectParses(nf, t, p, pad);
    hide ParseToken;
  }

  lemma EmptyObjectParses(nf: NumberFormat, t: string, p: nat, pad: string)
    requires AllSpace(pad) && At(t, p, "{" + (pad + "}"))
    ensures p < |t| && ParseToken(nf, t, p) == Ok(Object(map[]), p + 2 + |pad|)
  {
    hide ParseElements, ParseMembers, ParseString, ParseNumber, SkipSpace, AllSpace;
    AtConcat(t, p, "{", pad + "}");
    AtIndex(t, p, "{");
    hide At;
    SpaceThen(t, p + 1, pad, '}');
    assert t[p] == '{';
  }

  lemma {:induction false} TokenComplete(nf: NumberFormat, t: string, p: nat, tree: Tree)
    requires TreeShaped(tree) && At(t, p, TreeYield(tree)) && Boundary(t, p + |TreeYield(tree)|)
    ensures ReadsTree(nf, t, p, tree)
    decreases tree, 1
  {
    hide At, Boundary, ReadsTree, NumberYield, ItemsYield, ItemsShaped, NumberShaped, AllSpace;
    match tree
    case TNull => LiteralComplete(nf, t, p, tree);
    case TTrue => LiteralComplete(nf, t, p, tree);
    case TFalse => LiteralComplete(nf, t, p, tree);
    case TNumber(n) => NumberTokenComplete(nf, t, p, n);
    case TString(items) => StringTokenComplete(nf, t, p, items);
    case TEmptyArray(pad) => EmptyArrayComplete(nf, t, p, pad);
    case TEmptyObject(pad) => EmptyObjectComplete(nf, t, p, pad);
    case TArray(es) =>
      AtConcat(t, p, "[", ElementsYield(es));
      ElementsComplete(nf, t, p + 1, es, []);
      ArrayTokenComplete(nf, t, p, es);
    case TObject(ms) =>
      AtConcat(t, p, "{", MembersYield(ms));
      MembersComplete(nf, t, p + 1, ms, map[]);
      ObjectTokenComplete(nf, t, p, ms);
  }

  // Arrays

  predicate ReadsElements(nf: NumberFormat, t: string, p: nat, es: Elements, before: seq<Json>)
    requires ElementsShaped(es)
  {
    p <= |t|
    && ParseElements(nf, t, p, before)
    == if ElementsAccepted(nf, es) then Ok(Array(before + ElementsMeaning(nf, es)), p + |ElementsYield(es)|) else Fail
  }

  /** Where the first tree, the white space after it and the rest of the list are. */
  lemma ElementsSplit(t: string, p: nat, es: Elements, end: nat)
    requires ElementsShaped(es) && At(t, p, ElementsYield(es)) && end == p + |es.lead| + |TreeYield(es.tree)|
    ensures At(t, p, es.lead + TreeYield(es.tree)) && At(t, p + |es.lead|, TreeYield(es.tree))
    ensures At(t, end, es.trail + [if es.Last? then ']' else ','])
    ensures es.More? ==> At(t, end + |es.trail| + 1, ElementsYield(es.rest))
    ensures p + |ElementsYield(es)| == end + |es.trail| + 1 + (if es.More? then |ElementsYield(es.rest)| else 0)
    ensures Boundary(t, end)
  {
    hide TreeYield, TreeShaped, At, Boundary, AllSpace;
    var sep := if es.Last? then ']' else ',';
    AtConcat(t, p, es.lead + TreeYield(es.tree), ElementsTail(es));
    AtConcat(t, p, es.lead, TreeYield(es.tree));
    AtConcat(t, end, es.trail + [sep], if es.Last? then "" else ElementsYield(es.rest));
    hide ElementsYield;
    SpaceThenIsBoundary(t, end, es.trail, sep);
  }

  /** A list of elements does not begin with the closing bracket. */
  lemma ElementsStart(nf: NumberFormat, t: string, p: nat, es: Elements)
    requires ElementsShaped(es) && At(t, p, ElementsYield(es))
    ensures p <= |t| && SkipSpace(t, p) < |t| && t[SkipSpace(t, p)] != ']'
  {
    hide TreeYield, TreeShaped, SkipSpace, ParseToken, AllSpace, Boundary;
    ElementsSplit(t, p, es, p + |es.lead| + |TreeYield(es.tree)|);
    ValueAfterSpace(nf, t, p, es.lead, es.tree);
    TreeStart(es.tree);
    hide At, ElementsYield, ElementsShaped;
  }

  lemma ArrayTokenComplete(nf: NumberFormat, t: string, p: nat, es: Elements)
    requires ElementsShaped(es) && At(t, p, "[") && At(t, p + 1, ElementsYield(es))
    requires ReadsElements(nf, t, p + 1, es, [])
    ensures TreeShaped(TArray(es)) && ReadsTree(nf, t, p, TArray(es))
  {
    hide ElementsAccepted, ElementsMeaning, ParseToken, ParseElements, TreeYield, ElementsYield, Accepted, Meaning;
    AtIndex(t, p, "[");
    ElementsStart(nf, t, p + 1, es);
    hide At, ElementsShaped, SkipSpace;
    SameElements(nf, t, p + 1);
    ArrayYield(es);
    ArrayUnfolds(nf, t, p);
    ArrayMeaning(nf, es);
    assert ParseToken(nf, t, p) == ParseElements(nf, t, p + 1, []);
    assert [] + ElementsMeaning(nf, es) == ElementsMeaning(nf, es);
  }

  lemma ArrayMeaning(nf: NumberFormat, es: Elements)
    requires ElementsShaped(es)
    ensures TreeShaped(TArray(es)) && (Accepted(nf, TArray(es)) <==> ElementsAccepted(nf, es))
    ensures Meaning(nf, TArray(es)) == Array(ElementsMeaning(nf, es))
  {
    hide ElementsAccepted, ElementsMeaning;
  }

  lemma ArrayYield(es: Elements)
    ensures |TreeYield(TArray(es))| == 1 + |ElementsYield(es)|
  {
    hide ElementsYield;
  }

  lemma ArrayUnfolds(nf: NumberFormat, t: string, p: nat)
    requires p < |t| && t[p] == '['
    ensures ParseToken(nf, t, p) == ParseArray(nf, t, p)
  {
    hide ParseArray;
  }

  /** Skipping white space before the element loop makes no difference. */
  lemma SameElements(nf: NumberFormat, t: string, p: nat)
    requires p <= |t|
    ensures ParseElements(nf, t, SkipSpace(t, p), []) == ParseElements(nf, t, p, [])
  {
    SkipSpaceHere(t, p);
    hide SkipSpace, ParseToken;
    assert ParseValue(nf, t, SkipSpace(t, p)) == ParseValue(nf, t, p);
    hide ParseValue;
  }

  /** One turn of the element loop. */
  lemma ElementsTurn(nf: NumberFormat, t: string, p: nat, es: Elements, before: seq<Json>, end: nat)
    requires ElementsShaped(es) && At(t, p, ElementsYield(es)) && end == p + |es.lead| + |TreeYield(es.tree)|
    requires ReadsTree(nf, t, p + |es.lead|, es.tree)
    ensures p <= end + |es.trail| + 1 <= |t|
    ensures ParseElements(nf, t, p, before)
         == if !Accepted(nf, es.tree) then Fail
            else if es.Last? then Ok(Array(before + [Meaning(nf, es.tree)]), end + |es.trail| + 1)
            else ParseElements(nf, t, end + |es.trail| + 1, before + [Meaning(nf, es.tree)])
  {
    hide TreeYield, ParseToken, SkipSpace, Boundary, At, AllSpace, Accepted, Meaning, ParseElements, TreeShaped;
    ElementsSplit(t, p, es, end);
    hide ElementsYield;
    ValueAfterSpace(nf, t, p, es.lead, es.tree);
    SpaceThen(t, end, es.trail, if es.Last? then ']' else ',');
    hide ParseValue, ElementsShaped;
    ElementLoop(nf, t, p, before, ParseValue(nf, t, p), end + |es.trail|);
  }

  /** The element loop, given what its parts find. */
  lemma ElementLoop(nf: NumberFormat, t: string, p: nat, before: seq<Json>, value: Parsed<Json>, end: nat)
    requires p <= |t| && value == ParseValue(nf, t, p)
    requires value.Ok? ==> end == SkipSpace(t, value.next) && end < |t| && (t[end] == ']' || t[end] == ',')
    ensures ParseElements(nf, t, p, before)
         == if value.Fail? then Fail
            else if t[end] == ']' then Ok(Array(before + [value.value]), end + 1)
            else ParseElements(nf, t, end + 1, before + [value.value])
  {
    hide SkipSpace, ParseValue;
  }

  lemma {:induction false} ElementsComplete(nf: NumberFormat, t: string, p: nat, es: Elements, before: seq<Json>)
    requires ElementsShaped(es) && At(t, p, ElementsYield(es))
    ensures ReadsElements(nf, t, p, es, before)
    decreases es, 0
  {
    hide TreeYield, TreeShaped, ParseElements, Boundary, At, AllSpace, Accepted, Meaning, ReadsTree;
    var end := p + |es.lead| + |TreeYield(es.tree)|;
    ElementsSplit(t, p, es, end);
    TokenComplete(nf, t, p + |es.lead|, es.tree);
    ElementsTurn(nf, t, p, es, before, end);
    hide ElementsYield;
    var all := before + [Meaning(nf, es.tree)];
    if es.More? {
      ElementsComplete(nf, t, end + |es.trail| + 1, es.rest, all);
      if ElementsAccepted(nf, es.rest) {
        assert all + ElementsMeaning(nf, es.rest) == before + ElementsMeaning(nf, es);
      }
    } else {
      assert ElementsMeaning(nf, es) == [Meaning(nf, es.tree)];
    }
  }

  // Objects

  predicate ReadsMembers(nf: NumberFormat, t: string, p: nat, ms: Members, before: map<string, Json>)
    requires MembersShaped(ms)
  {
    p <= |t|
    && ParseMembers(nf, t, p, before)
    == if MembersAccepted(nf, ms, before.Keys)
       then Ok(Object(MembersMeaning(nf, ms, before)), p + |MembersYield(ms)|) else Fail
  }

  /** Where the parts of the first member are: its key, its value, the white space
      after it and the rest of the list. */
  lemma MembersSplit(t: string, p: nat, ms: Members, k: nat, c: nat, v: nat, end: nat)
    requires MembersShaped(ms) && At(t, p, MembersYield(ms))
    requires k == p + |ms.lead| && c == k + |StringYield(ms.key)| && v == c + |ms.mid| + 1
    requires end == v + |ms.inner| + |TreeYield(ms.tree)|
    ensures At(t, p, ms.lead + [QUOTE]) && At(t, k, StringYield(ms.key)) && At(t, c, ms.mid + [':'])
    ensures At(t, v, ms.inner + TreeYield(ms.tree)) && At(t, v + |ms.inner|, TreeYield(ms.tree))
    ensures At(t, end, ms.trail + [if ms.LastMember? then '}' else ','])
    ensures ms.MoreMembers? ==> At(t, end + |ms.trail| + 1, MembersYield(ms.rest))
    ensures p + |MembersYield(ms)| == end + |ms.trail| + 1 + (if ms.MoreMembers? then |MembersYield(ms.rest)| else 0)
    ensures Boundary(t, end)
  {
    hide TreeYield, StringYield, MembersYield, Boundary, At;
    var sep := if ms.LastMember? then '}' else ',';
    var y, s, rest := TreeYield(ms.tree), StringYield(ms.key), if ms.LastMember? then "" else MembersYield(ms.rest);
    MembersText(ms);
    assert AllSpace(ms.trail);
    hide MembersShaped, AllSpace;
    FourParts(t, p, ms.lead + s, ms.mid + [':'], ms.inner + y, (ms.trail + [sep]) + rest);
    AtConcat(t, end, ms.trail + [sep], rest);
    AtConcat(t, v, ms.inner, y);
    AtConcat(t, p, ms.lead, s);
    QuoteFirst(t, k, ms.key);
    AtConcat(t, p, ms.lead, [QUOTE]);
    SpaceThenIsBoundary(t, end, ms.trail, sep);
  }

  lemma MembersText(ms: Members)
    ensures MembersYield(ms)
         == (ms.lead + StringYield(ms.key))
            + ((ms.mid + [':']) + ((ms.inner + TreeYield(ms.tree))
            + ((ms.trail + [if ms.LastMember? then '}' else ','])
               + if ms.LastMember? then "" else MembersYield(ms.rest))))
  {
    hide TreeYield, StringYield;
  }

  lemma FourParts(t: string, p: nat, a: string, b: string, c: string, d: string)
    requires At(t, p, a + (b + (c + d)))
    ensures At(t, p, a) && At(t, p + |a|, b) && At(t, p + |a| + |b|, c) && At(t, p + |a| + |b| + |c|, d)
  {
    AtConcat(t, p, a, b + (c + d));
    AtConcat(t, p + |a|, b, c + d);
    AtConcat(t, p + |a| + |b|, c, d);
  }

  lemma QuoteFirst(t: string, k: nat, key: seq<Item>)
    requires At(t, k, StringYield(key))
    ensures At(t, k, [QUOTE])
  {
    AtConcat(t, k, [QUOTE] + ItemsYield(key), [QUOTE]);
    AtConcat(t, k, [QUOTE], ItemsYield(key));
  }

  /** A list of members begins with a quote. */
  lemma MembersStart(t: string, p: nat, ms: Members)
    requires MembersShaped(ms) && At(t, p, MembersYield(ms))
    ensures p <= |t| && SkipSpace(t, p) < |t| && t[SkipSpace(t, p)] == QUOTE
  {
    hide TreeYield, TreeShaped, SkipSpace, AllSpace, Boundary, StringYield;
    var k := p + |ms.lead|;
    var c := k + |StringYield(ms.key)|;
    var v := c + |ms.mid| + 1;
    MembersSplit(t, p, ms, k, c, v, v + |ms.inner| + |TreeYield(ms.tree)|);
    SpaceThen(t, p, ms.lead, QUOTE);
    hide At, MembersYield, MembersShaped;
  }

  lemma ObjectTokenComplete(nf: NumberFormat, t: string, p: nat, ms: Members)
    requires MembersShaped(ms) && At(t, p, "{") && At(t, p + 1, MembersYield(ms))
    requires ReadsMembers(nf, t, p + 1, ms, map[])
    ensures TreeShaped(TObject(ms)) && ReadsTree(nf, t, p, TObject(ms))
  {
    hide MembersAccepted, MembersMeaning, ParseToken, ParseMembers, TreeYield, MembersYield, Accepted, Meaning;
    AtIndex(t, p, "{");
    MembersStart(t, p + 1, ms);
    hide At, MembersShaped, SkipSpace;
    var none: map<string, Json> := map[];
    assert none.Keys == {};
    SameMembers(nf, t, p + 1);
    ObjectYield(ms);
    ObjectUnfolds(nf, t, p);
    ObjectMeaning(nf, ms);
    assert ParseToken(nf, t, p) == ParseMembers(nf, t, p + 1, none);
  }

  lemma ObjectYield(ms: Members)
    ensures |TreeYield(TObject(ms))| == 1 + |MembersYield(ms)|
  {
    hide MembersYield;
  }

  lemma ObjectUnfolds(nf: NumberFormat, t: string, p: nat)
    requires p < |t| && t[p] == '{'
    ensures ParseToken(nf, t, p) == ParseObject(nf, t, p)
  {
    hide ParseObject;
  }

  lemma ObjectMeaning(nf: NumberFormat, ms: Members)
    requires MembersShaped(ms)
    ensures TreeShaped(TObject(ms)) && (Accepted(nf, TObject(ms)) <==> MembersAccepted(nf, ms, {}))
    ensures Meaning(nf, TObject(ms)) == Object(MembersMeaning(nf, ms, map[]))
  {
    hide MembersAccepted, MembersMeaning;
  }

  lemma SameMembers(nf: NumberFormat, t: string, p: nat)
    requires p <= |t|
    ensures ParseMembers(nf, t, SkipSpace(t, p), map[]) == ParseMembers(nf, t, p, map[])
  {
    SkipSpaceHere(t, p);
    hide SkipSpace, ParseMembers;
    MembersFrom(nf, t, SkipSpace(t, p), p, map[]);
  }

  lemma MembersFrom(nf: NumberFormat, t: string, p: nat, q: nat, before: map<string, Json>)
    requires p <= |t| && q <= |t| && SkipSpace(t, p) == SkipSpace(t, q)
    ensures ParseMembers(nf, t, p, before) == ParseMembers(nf, t, q, before)
  {
    hide SkipSpace, ParseValue, ParseString, AllSpace;
  }

  /** The member loop, given what its parts find. */
  lemma MemberLoop(
    nf: NumberFormat, t: string, p: nat, before: map<string, Json>,
    key: Parsed<string>, colon: nat, value: Parsed<Json>, end: nat)
    requires p <= |t| && key == ParseString(t, SkipSpace(t, p))
    requires key.Ok? ==> colon == SkipSpace(t, key.next) && colon < |t| && t[colon] == ':'
    requires key.Ok? ==> value == ParseValue(nf, t, colon + 1)
    requires key.Ok? && value.Ok? ==> end == SkipSpace(t, value.next) && end < |t| && (t[end] == '}' || t[end] == ',')
    ensures ParseMembers(nf, t, p, before)
         == if key.Fail? || value.Fail? || key.value in before then Fail
            else if t[end] == '}' then Ok(Object(before[key.value := value.value]), end + 1)
            else ParseMembers(nf, t, end + 1, before[key.value := value.value])
  {
    hide SkipSpace, ParseValue, ParseString;
  }

  /** What the parser finds of the first member: its name up to the colon. */
  lemma NameFound(t: string, p: nat, ms: Members, k: nat, c: nat, v: nat, end: nat)
    requires MembersShaped(ms) && At(t, p, MembersYield(ms))
    requires k == p + |ms.lead| && c == k + |StringYield(ms.key)| && v == c + |ms.mid| + 1
    requires end == v + |ms.inner| + |TreeYield(ms.tree)|
    ensures p <= k < |t| && SkipSpace(t, p) == k
    ensures ParseString(t, k) == if Utf8.Valid(ItemsText(ms.key)) then Ok(ItemsText(ms.key), c) else Fail
    ensures c < v <= |t| && SkipSpace(t, c) == v - 1 && t[v - 1] == ':'
  {
    hide TreeYield, SkipSpace, At, AllSpace, ItemsText, ItemsYield, Utf8.Valid, ParseString, ItemsShaped, TreeShaped,
         Boundary, StringYield;
    MembersSplit(t, p, ms, k, c, v, end);
    hide MembersYield;
    SpaceThen(t, p, ms.lead, QUOTE);
    StringComplete(t, k, ms.key);
    SpaceThen(t, c, ms.mid, ':');
  }

  /** ... and its value up to the separator. */
  lemma ValueFound(nf: NumberFormat, t: string, p: nat, ms: Members, k: nat, c: nat, v: nat, end: nat)
    requires MembersShaped(ms) && At(t, p, MembersYield(ms))
    requires k == p + |ms.lead| && c == k + |StringYield(ms.key)| && v == c + |ms.mid| + 1
    requires end == v + |ms.inner| + |TreeYield(ms.tree)|
    requires ReadsTree(nf, t, v + |ms.inner|, ms.tree)
    ensures ParseValue(nf, t, v) == if Accepted(nf, ms.tree) then Ok(Meaning(nf, ms.tree), end) else Fail
    ensures end <= end + |ms.trail| < |t| && SkipSpace(t, end) == end + |ms.trail|
    ensures t[end + |ms.trail|] == if ms.LastMember? then '}' else ','
  {
    hide TreeYield, ParseToken, SkipSpace, At, AllSpace, Accepted, Meaning, ItemsYield, ItemsShaped, TreeShaped,
         Boundary, ParseValue, StringYield;
    MembersSplit(t, p, ms, k, c, v, end);
    hide MembersYield;
    ValueAfterSpace(nf, t, v, ms.inner, ms.tree);
    SpaceThen(t, end, ms.trail, if ms.LastMember? then '}' else ',');
  }

  /** One turn of the member loop. */
  lemma MembersTurn(
    nf: NumberFormat, t: string, p: nat, ms: Members, before: map<string, Json>, k: nat, c: nat, v: nat, end: nat)
    requires MembersShaped(ms) && At(t, p, MembersYield(ms))
    requires k == p + |ms.lead| && c == k + |StringYield(ms.key)| && v == c + |ms.mid| + 1
    requires end == v + |ms.inner| + |TreeYield(ms.tree)|
    requires ReadsTree(nf, t, v + |ms.inner|, ms.tree)
    ensures p <= end + |ms.trail| + 1 <= |t|
    ensures ParseMembers(nf, t, p, before)
         == if !Utf8.Valid(ItemsText(ms.key)) || !Accepted(nf, ms.tree) || ItemsText(ms.key) in before then Fail
            else if ms.LastMember?
            then Ok(Object(before[ItemsText(ms.key) := Meaning(nf, ms.tree)]), end + |ms.trail| + 1)
            else ParseMembers(nf, t, end + |ms.trail| + 1, before[ItemsText(ms.key) := Meaning(nf, ms.tree)])
  {
    hide TreeYield, ParseToken, SkipSpace, Boundary, At, AllSpace, Accepted, Meaning, ItemsText, ItemsYield,
         Utf8.Valid, ParseString, ParseMembers, ItemsShaped, TreeShaped, MembersYield, ReadsTree, StringYield,
         ParseValue;
    NameFound(t, p, ms, k, c, v, end);
    ValueFound(nf, t, p, ms, k, c, v, end);
    MemberLoop(nf, t, p, before, ParseString(t, k), v - 1, ParseValue(nf, t, v), end + |ms.trail|);
  }

  lemma {:induction false} MembersComplete(nf: NumberFormat, t: string, p: nat, ms: Members, before: map<string, Json>)
    requires MembersShaped(ms) && At(t, p, MembersYield(ms))
    ensures ReadsMembers(nf, t, p, ms, before)
    decreases ms, 0
  {
    hide TreeYield, TreeShaped, ParseMembers, Boundary, At, AllSpace, Accepted, Meaning, ReadsTree, ItemsText,
         ItemsYield, Utf8.Valid, StringYield;
    var k := p + |ms.lead|;
    var c := k + |StringYield(ms.key)|;
    var v := c + |ms.mid| + 1;
    var end := v + |ms.inner| + |TreeYield(ms.tree)|;
    MembersSplit(t, p, ms, k, c, v, end);
    TokenComplete(nf, t, v + |ms.inner|, ms.tree);
    MembersTurn(nf, t, p, ms, before, k, c, v, end);
    hide MembersYield;
    var all := before[ItemsText(ms.key) := Meaning(nf, ms.tree)];
    if ms.MoreMembers? {
      MembersComplete(nf, t, end + |ms.trail| + 1, ms.rest, all);
      assert all.Keys == before.Keys + {ItemsText(ms.key)};
    }
  }

  /** A text that consists of white space, a tree and white space is read as what
      the tree means, or refused exactly when the tree is not acceptable. */
  lemma DocumentComplete(nf: NumberFormat, lead: string, tree: Tree, trail: string)
    requires AllSpace(lead) && AllSpace(trail) && TreeShaped(tree)
    ensures ParseDocument(nf, lead + TreeYield(tree) + trail)
         == if Accepted(nf, tree) then Some(Meaning(nf, tree)) else None
  {
    hide TreeYield, TreeShaped, ParseToken, Accepted, Meaning;
    var t := lead + TreeYield(tree) + trail;
    var e := |lead| + |TreeYield(tree)|;
    assert At(t, 0, lead + TreeYield(tree)) && At(t, e, trail);
    ValueAfterSpace(nf, t, 0, lead, tree);
    AtConcat(t, 0, lead, TreeYield(tree));
    assert Boundary(t, e) by {
      if e < |t| { assert t[e] == trail[0]; }
    }
    TokenComplete(nf, t, |lead|, tree);
    SkipSpaceOver(t, e, trail);
    SkipSpaceHere(t, 0);
  }
}
