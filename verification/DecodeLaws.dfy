/** Exactly which documents decode, and to what. */
module DecodeLaws {
  import opened Types
  import opened JsonGrammar
  import opened JsonParse
  import opened Codec
  import CodecLaws
  import JsonSound
  import Revision

  /** The JSON of a property: an object of its type and its value, and nothing else. */
  predicate Denotes(j: Json, v: Value) {
    && j == CodecLaws.EntryJson(v)
    && (v.Number? ==> IsFinite(v.number))
  }

  /** A property entry decodes to a value exactly when it is the JSON of that value. */
  lemma EntryDecodesIff(j: Json, v: Value)
    ensures DecodeEntry(j) == Some(v) <==> Denotes(j, v)
  {
    if Denotes(j, v) {
      assert j.members.Keys == {"type", "value"};
    }
    if DecodeEntry(j) == Some(v) {
      OnlyTwo(j.members);
      if v.Vector3? {
        assert j.members["value"].items == [Num(v.x), Num(v.y), Num(v.z)];
      }
      assert j.members["value"] == CodecLaws.ValueJson(v);
      assert j.members == map["type" := Str(Revision.ValueTypeName(v)), "value" := CodecLaws.ValueJson(v)];
    }
  }

  lemma OnlyTwo(members: map<string, Json>)
    requires |members| == 2 && "type" in members && "value" in members
    ensures members.Keys == {"type", "value"}
  {
    var rest := members.Keys - {"type"} - {"value"};
    assert |members.Keys| == 2 && |members.Keys - {"type"}| == 1;
    assert |rest| == 0;
    assert members.Keys == rest + {"type", "value"};
  }

  /** The members of `properties` stand for a map of properties. */
  predicate DenotesAll(members: map<string, Json>, properties: Properties) {
    members.Keys == properties.Keys && forall k :: k in properties ==> Denotes(members[k], properties[k])
  }

  lemma EntriesDecodeIff(members: map<string, Json>, properties: Properties)
    ensures DecodeEntries(members) == Some(properties) <==> DenotesAll(members, properties)
  {
    hide DecodeEntry, Denotes;
    forall k | k in members && k in properties
      ensures DecodeEntry(members[k]) == Some(properties[k]) <==> Denotes(members[k], properties[k])
    {
      EntryDecodesIff(members[k], properties[k]);
    }
    if DenotesAll(members, properties) {
      assert AllDecode(members);
      assert (map k | k in members :: DecodeEntry(members[k]).value) == properties;
    }
    if DecodeEntries(members) == Some(properties) {
      forall k | k in properties ensures Denotes(members[k], properties[k]) {
        assert DecodeEntry(members[k]) == Some(properties[k]);
      }
    }
  }

  /** The root: five fields at most, the schema of version one, and the properties. */
  predicate IsRoot(root: Json, properties: Properties) {
    && root.Object? && root.members.Keys <= {"schema", "target", "collection", "revision", "properties"}
    && "schema" in root.members && root.members["schema"] == Num(ONE)
    && "properties" in root.members && root.members["properties"].Object?
    && DenotesAll(root.members["properties"].members, properties)
  }

  /** A document decodes to properties exactly when it derives, in the grammar, a root
      that stands for them; anything else does not decode. */
  lemma DocumentDecodesIff(nf: NumberFormat, document: string, properties: Properties)
    ensures DecodeDocument(nf, document) == Some(properties) <==>
              exists root :: Derives(nf, document, root) && IsRoot(root, properties)
  {
    hide ParseDocument, Derives, DecodeEntries, DenotesAll;
    forall root ensures ParseDocument(nf, document) == Some(root) <==> Derives(nf, document, root) {
      JsonSound.ParserIsGrammar(nf, document, root);
    }
    var parsed := ParseDocument(nf, document);
    if parsed.Some? {
      RootDecodesIff(parsed.value, properties);
    }
    hide DecodeRoot, IsRoot;
  }

  lemma RootDecodesIff(root: Json, properties: Properties)
    ensures DecodeRoot(root) == Some(properties) <==> IsRoot(root, properties)
  {
    hide DecodeEntries, DenotesAll;
    if root.Object? && "properties" in root.members && root.members["properties"].Object? {
      EntriesDecodeIff(root.members["properties"].members, properties);
    }
  }
}
