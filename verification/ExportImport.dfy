/** Exporting a collection and importing the document somewhere else. */
module ExportImport {
  import opened Types
  import opened Store
  import opened StoreLaws
  import opened Validation
  import opened Commit
  import opened Protocol
  import opened JsonGrammar
  import AccessPolicy
  import Codec
  import CodecLaws
  import Decimal
  import Ordering
  import Revision
  import Safety
  import Simulator
  import Utf8

  datatype Exporting = NotExported(status: Status) | Exported(document: string, revision: Word64)

  /** `exportCollection`. */
  function Export(
    nf: NumberFormat, service: Service, context: AccessContext, availability: Availability, store: Store,
    ref: CollectionRef)
    : Exporting
  {
    if !service.capabilities.exportImport then NotExported(Unsupported)
    else
      var error := ValidateRef(service, context, ref);
      if error.Some? then NotExported(error.value)
      else if !service.capabilities.read then NotExported(Unsupported)
      else if !TargetAvailable(availability, ref.target) then NotExported(TargetUnavailable)
      else
        var revision := Revision.RevisionOf(ref, ref in store, Lookup(store, ref));
        Exported(Codec.DocumentText(nf, ref, Lookup(store, ref), revision), revision)
  }

  /** `importCollection`, up to its call of `apply`: the operation, or nothing for a
      document that is too long or does not decode. */
  function ImportOf(
    nf: NumberFormat, service: Service, destination: CollectionRef, document: string, policy: ImportPolicy,
    expected: Guard)
    : Option<Operation>
  {
    if |document| > service.limits.maxImportBytes then None
    else
      var properties := Codec.DecodeDocument(nf, document);
      if properties.None? then None else Some(ImportCollection(destination, properties.value, expected, policy))
  }

  // Who may export, and what

  /** Exactly when a collection is exported; a caller without access to it never gets its
      document. */
  lemma ExportedIff(
    nf: NumberFormat, service: Service, context: AccessContext, availability: Availability, store: Store,
    ref: CollectionRef)
    ensures Export(nf, service, context, availability, store, ref).Exported? <==>
              && service.capabilities.exportImport && service.capabilities.read
              && AccessPolicy.ValidTarget(ref.target) && TargetCapability(service.capabilities, ref.target.kind)
              && ValidCollectionName(ref.collection, service.limits)
              && AccessPolicy.CanAccess(service.prefix, context, ref)
              && TargetAvailable(availability, ref.target)
  {
    hide Codec.DocumentText, Revision.RevisionOf, AccessPolicy.ValidTarget, TargetCapability, ValidCollectionName,
         AccessPolicy.CanAccess, TargetAvailable, Lookup;
  }

  /** What is exported is the document of the stored properties, under their revision. */
  lemma ExportedShows(
    nf: NumberFormat, service: Service, context: AccessContext, availability: Availability, store: Store,
    ref: CollectionRef)
    requires Export(nf, service, context, availability, store, ref).Exported?
    ensures var exported := Export(nf, service, context, availability, store, ref);
            && exported.revision == SnapshotIn(Revision.SnapshotOf, store, ref).revision
            && exported.document == Codec.DocumentText(nf, ref, Lookup(store, ref), exported.revision)
  {
    hide Codec.DocumentText, Revision.RevisionOf, ValidateRef, TargetAvailable, Revision.ByteCount;
  }

  /** The reading half of namespace isolation: two callers that are no administrators and
      differ in their normalized identity or in the namespace of their services never
      both export one collection, in whatever stores and states of its target. */
  lemma NoSharedExport(
    nf: NumberFormat, s1: Service, c1: AccessContext, s2: Service, c2: AccessContext,
    a1: Availability, a2: Availability, store1: Store, store2: Store, ref: CollectionRef)
    requires AccessPolicy.IsNormal(s1.prefix) && AccessPolicy.IsNormal(s2.prefix) && !c1.rawAdmin && !c2.rawAdmin
    requires Export(nf, s1, c1, a1, store1, ref).Exported? && Export(nf, s2, c2, a2, store2, ref).Exported?
    ensures s1.prefix == s2.prefix
    ensures AccessPolicy.Normalize(c1.pluginId) == AccessPolicy.Normalize(c2.pluginId)
  {
    hide Export, AccessPolicy.Normalize, AccessPolicy.IsNormal, AccessPolicy.ValidTarget, TargetCapability,
         ValidCollectionName, TargetAvailable;
    ExportedIff(nf, s1, c1, a1, store1, ref);
    ExportedIff(nf, s2, c2, a2, store2, ref);
    AccessPolicy.PrefixesSeparate(s1.prefix, c1.pluginId, s2.prefix, c2.pluginId, ref.collection);
  }

  /** The operation of an import is made from exactly the documents within the limit that
      decode, and hands on the policy and the expectation it was given. */
  lemma ImportedIff(
    nf: NumberFormat, service: Service, destination: CollectionRef, document: string, policy: ImportPolicy,
    expected: Guard, op: Operation)
    ensures ImportOf(nf, service, destination, document, policy, expected) == Some(op) <==>
              && op.ImportCollection? && op.destination == destination && op.policy == policy
              && op.expectedDestination == expected
              && |document| <= service.limits.maxImportBytes
              && Codec.DecodeDocument(nf, document) == Some(op.properties)
  {
    hide Codec.DecodeDocument;
  }

  // When the description of a target is valid UTF-8

  lemma {:induction false} ValidAroundPlain(a: string, plain: string, b: string)
    requires CodecLaws.Plain(plain) && plain != ""
    ensures Utf8.Valid(a + plain + b) <==> Utf8.Valid(a) && Utf8.Valid(b)
    decreases |plain|
  {
    var c, rest := plain[0], plain[1..];
    assert Utf8.Encode(c as int) == [c];
    hide Utf8.Valid, Utf8.Encode;
    Utf8.ValidAroundScalar(a, c as int, rest + b);
    assert a + plain + b == a + [c] + (rest + b);
    if rest == "" {
      assert rest + b == b;
    } else {
      ValidAroundPlain("", rest, b);
      assert "" + rest + b == rest + b;
      EmptyIsValid();
    }
  }

  lemma EmptyIsValid()
    ensures Utf8.Valid("")
  {
  }

  /** One optional labelled part of a description. */
  lemma LabelledPart(a: string, name: string, part: string)
    requires CodecLaws.Plain(name) && name != ""
    ensures Utf8.Valid(a + (if part != "" then name + part else "")) <==> Utf8.Valid(a) && Utf8.Valid(part)
  {
    hide Utf8.Valid;
    EmptyIsValid();
    ValidAroundPlain(a, name, part);
    if part != "" {
      assert a + (name + part) == a + name + part;
    } else {
      assert a + "" == a;
    }
  }

  lemma {:induction false} DecimalIsPlain(n: int)
    ensures CodecLaws.Plain(Decimal.OfInt(n)) && Decimal.OfInt(n) != ""
  {
    var digits := Decimal.Digits(if n < 0 then -n else n);
    hide Decimal.Digits;
    assert forall i :: 0 <= i < |digits| ==> '0' <= digits[i] <= '9';
  }

  /** A part without text of its own. */
  lemma PlainPart(a: string, part: string)
    requires CodecLaws.Plain(part)
    ensures Utf8.Valid(a + part) <==> Utf8.Valid(a)
  {
    hide Utf8.Valid;
    EmptyIsValid();
    if part != "" {
      ValidAroundPlain(a, part, "");
      assert a + part + "" == a + part;
    } else {
      assert a + part == a;
    }
  }

  function BlockPart(block: Option<BlockLocation>): string {
    match block
    case None => ""
    case Some(b) =>
      ":" + b.dimension + "@" + Decimal.OfInt(b.x) + "," + Decimal.OfInt(b.y) + "," + Decimal.OfInt(b.z)
  }

  lemma BlockPartValid(a: string, block: Option<BlockLocation>)
    ensures Utf8.Valid(a + BlockPart(block)) <==> Utf8.Valid(a) && (block.Some? ==> Utf8.Valid(block.value.dimension))
  {
    hide Utf8.Valid, Decimal.OfInt;
    if block.None? {
      assert a + "" == a;
    } else {
      var b := block.value;
      var x, y, z := Decimal.OfInt(b.x), Decimal.OfInt(b.y), Decimal.OfInt(b.z);
      DecimalIsPlain(b.x);
      DecimalIsPlain(b.y);
      DecimalIsPlain(b.z);
      var tail := "@" + x + "," + y + "," + z;
      PlainPart(a + ":" + b.dimension, tail);
      assert a + BlockPart(block) == (a + ":" + b.dimension) + tail;
      ValidAroundPlain(a, ":", b.dimension);
    }
  }

  /** A target's description is valid UTF-8 exactly when every identifier in the
      target is. */
  lemma DescriptionValid(target: Target)
    ensures Utf8.Valid(Revision.DescribeTarget(target)) <==>
              Utf8.Valid(target.worldId) && Utf8.Valid(target.xuid) && Utf8.Valid(target.entityId)
              && Utf8.Valid(target.itemEntityId) && (target.block.Some? ==> Utf8.Valid(target.block.value.dimension))
  {
    hide Utf8.Valid, Decimal.OfInt, Revision.TargetKindName;
    var kind := Revision.TargetKindName(target.kind);
    KindIsPlain(target.kind);
    EmptyIsValid();
    var a := kind + ":" + target.worldId;
    assert "" + kind == kind;
    PlainPart("", kind);
    ValidAroundPlain(kind, ":", target.worldId);
    var b := a + if target.xuid != "" then ":xuid=" + target.xuid else "";
    LabelledPart(a, ":xuid=", target.xuid);
    var c := b + if target.entityId != "" then ":entity=" + target.entityId else "";
    LabelledPart(b, ":entity=", target.entityId);
    var d := c + if target.itemEntityId != "" then ":item=" + target.itemEntityId else "";
    LabelledPart(c, ":item=", target.itemEntityId);
    BlockPartValid(d, target.block);
    var slot := if target.slot >= 0 then ":slot=" + Decimal.OfInt(target.slot) else "";
    DecimalIsPlain(target.slot);
    PlainPart(d + BlockPart(target.block), slot);
    assert Revision.DescribeTarget(target) == d + BlockPart(target.block) + slot;
  }

  predicate IsInventory(kind: TargetKind) {
    kind in {PlayerInventorySlot, PlayerArmorSlot, PlayerOffhandSlot}
  }

  predicate IsSlot(kind: TargetKind) {
    kind in {PlayerEnderChestSlot, BlockContainerSlot, DroppedItem, BlockEntity}
  }

  lemma InventoryKindIsPlain(kind: TargetKind)
    requires IsInventory(kind)
    ensures CodecLaws.Plain(Revision.TargetKindName(kind))
  {
  }

  lemma SlotKindIsPlain(kind: TargetKind)
    requires IsSlot(kind)
    ensures CodecLaws.Plain(Revision.TargetKindName(kind))
  {
  }

  lemma OtherKindIsPlain(kind: TargetKind)
    requires !IsInventory(kind) && !IsSlot(kind)
    ensures CodecLaws.Plain(Revision.TargetKindName(kind))
  {
  }

  lemma KindIsPlain(kind: TargetKind)
    ensures CodecLaws.Plain(Revision.TargetKindName(kind))
  {
    hide *;
    if IsInventory(kind) {
      InventoryKindIsPlain(kind);
    } else if IsSlot(kind) {
      SlotKindIsPlain(kind);
    } else {
      OtherKindIsPlain(kind);
    }
  }

  // Importing

  /** Importing acceptable properties with Replace into a permitted, available
      collection always succeeds: it passes every check in every store, and
      afterwards the collection holds exactly those properties and nothing else has
      changed. */
  lemma {:induction false} ReplaceSucceeds(
    make: SnapshotMaker, availability: Availability, store: Store, service: Service, context: AccessContext,
    destination: CollectionRef, properties: Properties)
    requires ValidProperties(properties, service.limits) && |properties| <= service.limits.maxPropertiesPerCollection
    requires ValidateRef(service, context, destination).None? && service.capabilities.exportImport
    requires TargetAvailable(availability, destination.target)
    ensures Replaced(make, availability, store, service,
                     Request([ImportCollection(destination, properties, None, Replace)], context, false, Single),
                     destination, properties)
  {
    var op := ImportCollection(destination, properties, None, Replace);
    var ops := [op];
    var request := Request(ops, context, false, Single);
    ReplaceAdmitted(service, context, destination, properties);
    ReplaceApplies(make, availability, store, op);
    hide ApplyTo, Admitted, LimitError, ValidProperties, ValidateRef, TargetAvailable;
    ReplaceFits(availability, store, op, service.limits.maxPropertiesPerCollection);
  }

  lemma {:induction false} ReplaceAdmitted(
    service: Service, context: AccessContext, destination: CollectionRef, properties: Properties)
    requires ValidProperties(properties, service.limits) && |properties| <= service.limits.maxPropertiesPerCollection
    requires ValidateRef(service, context, destination).None? && service.capabilities.exportImport
    ensures Admitted(service,
                     Request([ImportCollection(destination, properties, None, Replace)], context, false, Single))
  {
    hide ValidateEntries, ValidateRef, ValidProperties;
    var op := ImportCollection(destination, properties, None, Replace);
    assert ValidateOperation(service, context, op).None?;
    hide ValidateOperation, ValidateBody;
    assert FirstOperationError(service, context, [op]).None?;
  }

  lemma ReplaceFacts(store: Store, op: Operation)
    requires op.ImportCollection? && op.policy.Replace? && op.expectedDestination.None?
    ensures Perform(store, op) == Done(store[op.destination := op.properties]) && !ConflictingExpectations(op)
    ensures forall ref :: Names(op, ref) ==> ref == op.destination && ExpectedRevision(op, ref).None?
  {
  }

  lemma ReplaceApplies(make: SnapshotMaker, availability: Availability, store: Store, op: Operation)
    requires op.ImportCollection? && op.policy.Replace? && op.expectedDestination.None?
    requires TargetAvailable(availability, op.destination.target)
    ensures ApplyTo(make, availability, store, op, false).result.Ok()
    ensures ApplyTo(make, availability, store, op, false).store == store[op.destination := op.properties]
  {
    hide Perform, ApplyTo, TargetAvailable, ExpectedRevision, SnapshotIn, Names, Distinct, OperationCollections,
         ConflictingExpectations;
    ReplaceFacts(store, op);
    AppliedIff(make, availability, store, op, false);
    AppliedMeans(make, availability, store, op, false, ApplyTo(make, availability, store, op, false),
                 Distinct(OperationCollections(op)), Perform(store, op));
  }

  predicate Replaced(
    make: SnapshotMaker, availability: Availability, store: Store, service: Service, request: Request,
    destination: CollectionRef, properties: Properties)
  {
    && Admitted(service, request) && request.kind.Single?
    && LimitError(availability, store, request.operations, service.limits.maxPropertiesPerCollection).None?
    && var c := CommitTo(make, availability, store, request);
       c.settled.status == Applied && c.store == store[destination := properties]
  }

  lemma {:induction false} ReplaceFits(availability: Availability, store: Store, op: Operation, max: nat)
    requires op.ImportCollection? && op.policy.Replace? && |op.properties| <= max
    requires TargetAvailable(availability, op.destination.target)
    ensures LimitError(availability, store, [op], max).None?
  {
    var ops := [op];
    hide TargetAvailable, Simulator.Scan;
    assert OperationCollections(ops[0])[0] == op.destination;
    assert CollectionsOf(ops) == {op.destination};
    LimitErrorExact(availability, store, ops, max);
    forall k | 0 <= k < |ops| ensures !OverLimitAt(store, CollectionsOf(ops), ops, k, max) {
      assert ops[..1] == ops && ops[..0] == [];
      assert PerformAll(store, ops) == Perform(store, op);
    }
  }

  lemma StoredIsReadable(limits: ValidationLimits, store: Store, ref: CollectionRef)
    requires GoodStore(limits, store)
    ensures CodecLaws.AllFinite(Lookup(store, ref)) && CodecLaws.AllTextValid(Lookup(store, ref))
    ensures ValidProperties(Lookup(store, ref), limits)
  {
    hide Utf8.Valid, IsFinite;
  }

  /** The operation an import of an exported document amounts to. */
  lemma ExportedDecodes(
    nf: NumberFormat, limits: ValidationLimits, store: Store, availability: Availability,
    exporter: Service, c1: AccessContext, ref: CollectionRef, importer: Service, destination: CollectionRef)
    requires Codec.Faithful(nf) && GoodStore(limits, store) && exporter.limits == importer.limits == limits
    requires Export(nf, exporter, c1, availability, store, ref).Exported?
    ensures ImportOf(nf, importer, destination, Export(nf, exporter, c1, availability, store, ref).document,
                     Replace, None)
         == if |Export(nf, exporter, c1, availability, store, ref).document| <= limits.maxImportBytes
               && Utf8.Valid(Revision.DescribeTarget(ref.target))
            then Some(ImportCollection(destination, Lookup(store, ref), None, Replace))
            else None
  {
    hide Utf8.Valid, Revision.RevisionOf, Codec.DocumentText, GoodStore, Codec.Faithful, CodecLaws.AllFinite,
         CodecLaws.AllTextValid, Codec.DecodeDocument, Revision.DescribeTarget, TargetAvailable, Lookup,
         AccessPolicy.CanAccess, AccessPolicy.ValidTarget, TargetCapability;
    assert Utf8.Valid(ref.collection);
    hide ValidateRef;
    StoredIsReadable(limits, store, ref);
    CodecLaws.DocumentReads(nf, ref, Lookup(store, ref), Revision.RevisionOf(ref, ref in store, Lookup(store, ref)));
  }

  // A collection that can be exported and not imported

  const MALFORMED: CollectionRef :=
    CollectionRef(Target(World, [0xFF as char], "", "", None, NoSection, -1, ""), "c")
  const SERVICE: Service :=
    Service(ValidationLimits(100, 100, 100, 100, 100, 100), IN_MEMORY, AccessPolicy.DEFAULT_PREFIX)
  const ADMIN: AccessContext := AccessContext("", true)

  lemma MalformedIsAccepted()
    ensures ValidateRef(SERVICE, ADMIN, MALFORMED).None? && GoodRef(SERVICE.limits, MALFORMED)
    ensures !Utf8.Valid(MALFORMED.target.worldId)
  {
    assert "c"[0] != NUL && Utf8.HeadLength("c") == 1 && "c"[1..] == "";
    assert Utf8.Valid("c") && NUL !in "c";
    assert Utf8.HeadLength([0xFF as char]) == 0;
  }

  /** A world whose identifier is the byte 0xFF: its collection is accepted, stored and
      exported, and the document does not decode, so no service imports it, whatever its
      limits. */
  lemma MalformedTargetWitness(nf: NumberFormat, destination: CollectionRef)
    requires Codec.Faithful(nf)
    ensures var store: Store := map[MALFORMED := map[]];
            && ValidateRef(SERVICE, ADMIN, MALFORMED).None?
            && GoodStore(SERVICE.limits, store)
            && Export(nf, SERVICE, ADMIN, map[], store, MALFORMED).Exported?
            && var document := Export(nf, SERVICE, ADMIN, map[], store, MALFORMED).document;
               && Codec.DecodeDocument(nf, document).None?
               && forall importer, policy, expected ::
                    ImportOf(nf, importer, destination, document, policy, expected).None?
  {
    hide Codec.Faithful, Codec.DocumentText, Codec.DecodeDocument, Revision.RevisionOf, Revision.DescribeTarget,
         Utf8.Valid, ValidateRef, GoodRef;
    var none: Properties := map[];
    var store: Store := map[MALFORMED := none];
    MalformedIsAccepted();
    DescriptionValid(MALFORMED.target);
    assert GoodCollection(SERVICE.limits, MALFORMED, none);
    CodecLaws.DocumentReads(nf, MALFORMED, none, Revision.RevisionOf(MALFORMED, true, none));
  }

  /** What a collection holds in a reachable state can be printed and read back. */
  lemma {:induction false} ReachedIsReadable(
    env: Env, start: Store, availability: Availability, actions: seq<Action>, ref: CollectionRef)
    requires Safety.StoreOk(env, start)
    ensures var s := Run(env, Start(start, availability), actions);
            var p := Lookup(s.store, ref);
            && GoodStore(env.limits, s.store) && ValidProperties(p, env.limits)
            && CodecLaws.AllFinite(p) && CodecLaws.AllTextValid(p)
            && |p| <= env.limits.maxPropertiesPerCollection
  {
    Safety.LimitsHoldInEveryRun(env, start, availability, actions);
    hide Run, Start, GoodStore;
    StoredIsReadable(env.limits, Run(env, Start(start, availability), actions).store, ref);
  }

  /** Whatever any run of the services has made of the store, the document of any
      collection that can be exported can be imported again exactly when it fits the
      import limit and the identifiers of its target are valid UTF-8; importing it
      with Replace into any permitted and available collection, in whatever store
      there is by then, passes every check, and gives that collection exactly the
      exported properties. */
  lemma {:induction false} ExportedIsImportable(
    env: Env, nf: NumberFormat, start: Store, availability: Availability, actions: seq<Action>,
    exporter: Service, c1: AccessContext, ref: CollectionRef,
    importer: Service, c2: AccessContext, destination: CollectionRef, laterAvailability: Availability, later: Store)
    requires Codec.Faithful(nf) && Safety.StoreOk(env, start)
    requires exporter.limits == importer.limits == env.limits
    requires var s := Run(env, Start(start, availability), actions);
             Export(nf, exporter, c1, s.availability, s.store, ref).Exported?
    requires ValidateRef(importer, c2, destination).None? && importer.capabilities.exportImport
    requires TargetAvailable(laterAvailability, destination.target)
    ensures var s := Run(env, Start(start, availability), actions);
            var document := Export(nf, exporter, c1, s.availability, s.store, ref).document;
            var op := ImportOf(nf, importer, destination, document, Replace, None);
            && (op.Some? <==>
                  |document| <= env.limits.maxImportBytes && Utf8.Valid(Revision.DescribeTarget(ref.target)))
            && (op.Some? ==>
                  Replaced(env.make, laterAvailability, later, importer, Request([op.value], c2, false, Single),
                           destination, Lookup(s.store, ref)))
  {
    hide Run, Start, Safety.ThreadsOk, Safety.StoreOk, Export, ImportOf, Codec.Faithful, ValidateRef, TargetAvailable,
         Replaced, Utf8.Valid, Revision.DescribeTarget, GoodStore, WithinLimit, Lookup, ValidProperties,
         CodecLaws.AllFinite, CodecLaws.AllTextValid;
    var s := Run(env, Start(start, availability), actions);
    ReachedIsReadable(env, start, availability, actions, ref);
    ExportedDecodes(nf, env.limits, s.store, s.availability, exporter, c1, ref, importer, destination);
    ReplaceSucceeds(env.make, laterAvailability, later, importer, c2, destination, Lookup(s.store, ref));
  }
}
