/** Which plugin may touch which collection. */
module AccessPolicy {
  import opened Types

  predicate IsPlain(c: char) {
    'a' <= c <= 'z' || '0' <= c <= '9' || c == '-' || c == '_' || c == '.'
  }

  function NormalizeChar(c: char): (r: char)
    ensures IsPlain(r)
  {
    if IsPlain(c) then c
    else if 'A' <= c <= 'Z' then (c as int - 'A' as int + 'a' as int) as char
    else '_'
  }

  function NormalizeChars(s: string): string {
    seq(|s|, i requires 0 <= i < |s| => NormalizeChar(s[i]))
  }

  predicate AllPlain(s: string) {
    forall c :: c in s ==> IsPlain(c)
  }

  function TrimFront(s: string): (r: string)
    ensures |r| <= |s| && (AllPlain(s) ==> AllPlain(r))
    ensures r == "" || r[0] != '_'
  {
    if s != "" && s[0] == '_' then TrimFront(s[1..]) else s
  }

  function TrimBack(s: string): (r: string)
    ensures r <= s && (AllPlain(s) ==> AllPlain(r))
    ensures r == "" || r[|r| - 1] != '_'
  {
    if s != "" && s[|s| - 1] == '_' then TrimBack(s[..|s| - 1]) else s
  }

  function Normalize(s: string): string {
    TrimBack(TrimFront(NormalizeChars(s)))
  }

  /** Names that normalization leaves alone. */
  predicate IsNormal(s: string) {
    AllPlain(s) && (s != "" ==> s[0] != '_' && s[|s| - 1] != '_')
  }

  lemma NormalizeIsNormal(s: string)
    ensures IsNormal(Normalize(s))
  {
    var mapped := NormalizeChars(s);
    assert AllPlain(mapped);
    var front := TrimFront(mapped);
    var back := TrimBack(front);
    hide IsPlain, NormalizeChars, TrimFront, TrimBack;
    assert back != "" ==> back[0] == front[0];
  }

  /** The normal names are exactly the fixed points of normalization. */
  lemma NormalIffFixed(s: string)
    ensures IsNormal(s) <==> Normalize(s) == s
  {
    if IsNormal(s) {
      assert forall i :: 0 <= i < |s| ==> s[i] in s;
      assert NormalizeChars(s) == s;
    } else {
      NormalizeIsNormal(s);
    }
  }

  lemma NormalizeIdempotent(s: string)
    ensures Normalize(Normalize(s)) == Normalize(s)
  {
    NormalizeIsNormal(s);
    NormalIffFixed(Normalize(s));
  }

  /** The loops of `normalize`: append, trim the front, trim the back. */
  method NormalizeInPlace(value: string) returns (out: string)
    ensures out == Normalize(value) && IsNormal(out) && ':' !in out
  {
    out := AppendNormalized(value);
    while out != "" && out[0] == '_'
      invariant TrimFront(out) == TrimFront(NormalizeChars(value))
      decreases |out|
    {
      out := out[1..];
    }
    while out != "" && out[|out| - 1] == '_'
      invariant TrimBack(out) == Normalize(value)
      decreases |out|
    {
      out := out[..|out| - 1];
    }
    NormalizeIsNormal(value);
    NormalHasNoColon(out);
  }

  method AppendNormalized(value: string) returns (out: string)
    ensures out == NormalizeChars(value)
  {
    out := "";
    for i := 0 to |value|
      invariant out == NormalizeChars(value[..i])
    {
      var c := value[i];
      if IsPlain(c) {
        out := out + [c];
      } else if 'A' <= c <= 'Z' {
        out := out + [(c as int - 'A' as int + 'a' as int) as char];
      } else {
        out := out + ['_'];
      }
    }
    assert value[..|value|] == value;
  }

  /** The collections of a plugin start with this; no plugin owns the empty prefix. */
  function PluginPrefix(prefix: string, pluginId: string): string {
    var normalized := Normalize(pluginId);
    if normalized == "" then "" else prefix + ":" + normalized + ":"
  }

  function PluginCollection(prefix: string, pluginId: string, logical: string): string {
    var own := PluginPrefix(prefix, pluginId);
    if own == "" || Normalize(logical) == "" then "" else own + Normalize(logical)
  }

  predicate CanAccess(prefix: string, context: AccessContext, ref: CollectionRef) {
    context.rawAdmin
    || (PluginPrefix(prefix, context.pluginId) != "" && PluginPrefix(prefix, context.pluginId) <= ref.collection)
  }

  const DEFAULT_PREFIX := "endstone-plugin"

  lemma DefaultIsNormal()
    ensures IsNormal(DEFAULT_PREFIX)
  {
    assert DEFAULT_PREFIX[0] == 'e' && DEFAULT_PREFIX[14] == 'n';
  }

  /** The policy object: its prefix is normalized once, and never empty. */
  class DynamicPropertyAccessPolicy {
    const prefix: string

    constructor (given: string)
      ensures IsNormal(prefix) && prefix != ""
      ensures prefix == if Normalize(given) == "" then DEFAULT_PREFIX else Normalize(given)
    {
      var normalized := NormalizeInPlace(given);
      if normalized == "" { normalized := DEFAULT_PREFIX; }
      DefaultIsNormal();
      prefix := normalized;
    }
  }

  lemma NormalHasNoColon(s: string)
    requires IsNormal(s)
    ensures ':' !in s
  {
  }

  /** Text up to the first separator is determined by the whole. */
  lemma FirstField(a: string, b: string, resta: string, restb: string)
    requires ':' !in a && ':' !in b
    requires a + ":" + resta == b + ":" + restb
    ensures a == b && resta == restb
  {
    var s := a + ":" + resta;
    assert s[|a|] == ':' && s[|b|] == ':';
    assert forall i :: 0 <= i < |a| ==> s[i] == a[i] && s[i] in a;
    assert forall i :: 0 <= i < |b| ==> s[i] == b[i] && s[i] in b;
    assert |a| == |b|;
    assert a == s[..|a|] && b == s[..|b|];
    assert resta == s[|a| + 1..] && restb == s[|b| + 1..];
  }

  /** A name under the prefix of an owner has two fields without a colon before the rest. */
  lemma NameParts(prefix: string, id: string, name: string) returns (rest: string)
    requires IsNormal(prefix) && PluginPrefix(prefix, id) != "" && PluginPrefix(prefix, id) <= name
    ensures ':' !in prefix && ':' !in Normalize(id)
    ensures name == prefix + ":" + (Normalize(id) + ":" + rest)
  {
    NormalizeIsNormal(id);
    NormalHasNoColon(prefix);
    NormalHasNoColon(Normalize(id));
    hide Normalize, IsNormal;
    rest := name[|PluginPrefix(prefix, id)|..];
  }

  /** No collection name lies under the prefixes of two different owners. */
  lemma PrefixesSeparate(prefix1: string, id1: string, prefix2: string, id2: string, name: string)
    requires IsNormal(prefix1) && IsNormal(prefix2)
    requires PluginPrefix(prefix1, id1) != "" && PluginPrefix(prefix2, id2) != ""
    requires PluginPrefix(prefix1, id1) <= name && PluginPrefix(prefix2, id2) <= name
    ensures prefix1 == prefix2 && Normalize(id1) == Normalize(id2)
  {
    hide Normalize, IsNormal, PluginPrefix;
    var r1 := NameParts(prefix1, id1, name);
    var r2 := NameParts(prefix2, id2, name);
    FirstField(prefix1, prefix2, Normalize(id1) + ":" + r1, Normalize(id2) + ":" + r2);
    FirstField(Normalize(id1), Normalize(id2), r1, r2);
  }

  /** Two non-administrators with different plugin identities share no collection. */
  lemma NoSharedCollection(prefix: string, c1: AccessContext, c2: AccessContext, ref: CollectionRef)
    requires IsNormal(prefix) && !c1.rawAdmin && !c2.rawAdmin
    requires CanAccess(prefix, c1, ref) && CanAccess(prefix, c2, ref)
    ensures Normalize(c1.pluginId) == Normalize(c2.pluginId)
  {
    PrefixesSeparate(prefix, c1.pluginId, prefix, c2.pluginId, ref.collection);
  }

  /** A plugin can reach its own collections, and different normalized logical
      names are different collections. */
  lemma OwnCollections(prefix: string, context: AccessContext, target: Target, logical: string, other: string)
    requires Normalize(context.pluginId) != "" && Normalize(logical) != ""
    ensures CanAccess(prefix, context, CollectionRef(target, PluginCollection(prefix, context.pluginId, logical)))
    ensures PluginCollection(prefix, context.pluginId, logical) == PluginCollection(prefix, context.pluginId, other)
         <==> Normalize(logical) == Normalize(other)
  {
    var own := PluginPrefix(prefix, context.pluginId);
    assert own + Normalize(logical) == own + Normalize(other) ==>
      (own + Normalize(logical))[|own|..] == (own + Normalize(other))[|own|..];
  }

  /** The name that the documentation gives: the prefix of the plugin, then the logical
      name as given. */
  function DocumentedCollection(prefix: string, pluginId: string, logical: string): string {
    PluginPrefix(prefix, pluginId) + logical
  }

  /** It is the name the code gives exactly for logical names that are normal and not
      empty. */
  lemma DocumentedFormIff(prefix: string, pluginId: string, logical: string)
    requires Normalize(pluginId) != ""
    ensures PluginCollection(prefix, pluginId, logical) == DocumentedCollection(prefix, pluginId, logical)
       <==> IsNormal(logical) && logical != ""
  {
    NormalIffFixed(logical);
    hide Normalize, IsNormal;
    var own := PluginPrefix(prefix, pluginId);
    SameRest(own, Normalize(logical), logical);
  }

  lemma SameRest(front: string, a: string, b: string)
    ensures front + a == front + b <==> a == b
  {
    if front + a == front + b {
      assert a == (front + a)[|front|..] && b == (front + b)[|front|..];
    }
  }

  /** A capital letter is enough for another name. */
  lemma DocumentedFormWitness()
    ensures PluginCollection(DEFAULT_PREFIX, "shop", "Prices") == "endstone-plugin:shop:prices"
    ensures DocumentedCollection(DEFAULT_PREFIX, "shop", "Prices") == "endstone-plugin:shop:Prices"
  {
    ShopIsNormal();
    PricesNormalized();
    hide Normalize;
    ShopPrefix();
    hide PluginPrefix;
    assert "endstone-plugin:shop:" + "prices" == "endstone-plugin:shop:prices";
    assert "endstone-plugin:shop:" + "Prices" == "endstone-plugin:shop:Prices";
  }

  lemma ShopIsNormal()
    ensures Normalize("shop") == "shop"
  {
    assert IsNormal("shop");
    hide Normalize, IsNormal;
    NormalIffFixed("shop");
  }

  lemma PricesNormalized()
    ensures Normalize("Prices") == "prices"
  {
    assert NormalizeChars("Prices") == "prices";
    hide NormalizeChars;
    assert TrimFront("prices") == "prices" && TrimBack("prices") == "prices";
  }

  lemma ShopPrefix()
    ensures PluginPrefix(DEFAULT_PREFIX, "shop") == "endstone-plugin:shop:"
  {
    ShopIsNormal();
    hide Normalize;
    assert DEFAULT_PREFIX + ":" + "shop" + ":" == "endstone-plugin:shop:";
  }

  /** Capitals become small, anything but letters, digits, dots, hyphens and underscores
      becomes an underscore, and underscores at the ends go. */
  lemma NormalizeExample()
    ensures Normalize("!A-b.1 ") == "a-b.1"
  {
    assert NormalizeChars("!A-b.1 ") == "_a-b.1_";
    hide NormalizeChars;
    assert "_a-b.1_"[1..] == "a-b.1_" && "a-b.1_"[..5] == "a-b.1";
  }

  /** An administrator can access everything, a caller without an identity nothing. */
  lemma AccessAtTheEnds(prefix: string, context: AccessContext, ref: CollectionRef)
    ensures context.rawAdmin ==> CanAccess(prefix, context, ref)
    ensures !context.rawAdmin && Normalize(context.pluginId) == "" ==> !CanAccess(prefix, context, ref)
  {
    hide Normalize;
  }

  /** Whether the identity fields of a target are complete for its kind. */
  predicate ValidTarget(target: Target) {
    target.worldId != "" &&
    match target.kind
    case World => true
    case OnlinePlayer => target.xuid != ""
    case OfflinePlayer => target.xuid != ""
    case LoadedEntity => target.entityId != ""
    case StoredEntity => target.entityId != ""
    case PlayerInventorySlot => target.xuid != "" && target.section.MainSection? && target.slot >= 0
    case PlayerArmorSlot => target.xuid != "" && target.section.ArmorSection? && target.slot >= 0
    case PlayerOffhandSlot => target.xuid != "" && target.section.OffhandSection? && target.slot >= 0
    case PlayerEnderChestSlot => target.xuid != "" && target.section.EnderChestSection? && target.slot >= 0
    case BlockContainerSlot => target.block.Some? && target.section.BlockContainerSection? && target.slot >= 0
    case DroppedItem => target.itemEntityId != ""
    case BlockEntity => target.block.Some?
  }
}
