/** What the validators accept and with which status they reject, said of the targets
    callers build, of texts by their length, and of numbers by their bits. */
module ValidationLaws {
  import opened Types
  import opened Store
  import opened StoreLaws
  import opened Validation
  import AccessPolicy
  import Ordering
  import Utf8

  // Targets as callers build them

  const PLAIN: Target := Target(World, "", "", "", None, NoSection, -1, "")

  function WorldTarget(worldId: string): Target {
    PLAIN.(worldId := worldId)
  }

  function OnlinePlayerTarget(xuid: string, worldId: string): Target {
    PLAIN.(kind := OnlinePlayer, worldId := worldId, xuid := xuid)
  }

  function OfflinePlayerTarget(xuid: string, worldId: string): Target {
    OnlinePlayerTarget(xuid, worldId).(kind := OfflinePlayer)
  }

  function LoadedEntityTarget(entityId: string, worldId: string): Target {
    PLAIN.(kind := LoadedEntity, worldId := worldId, entityId := entityId)
  }

  function StoredEntityTarget(entityId: string, worldId: string): Target {
    LoadedEntityTarget(entityId, worldId).(kind := StoredEntity)
  }

  function PlayerItemTarget(xuid: string, section: InventorySection, slot: int, worldId: string): Target {
    PLAIN.(worldId := worldId, xuid := xuid, section := section, slot := slot,
    kind := match section
            case ArmorSection => PlayerArmorSlot
            case OffhandSection => PlayerOffhandSlot
            case EnderChestSection => PlayerEnderChestSlot
            case _ => PlayerInventorySlot)
  }

  function BlockContainerItemTarget(location: BlockLocation, slot: int, worldId: string): Target {
    PLAIN.(kind := BlockContainerSlot, worldId := worldId, block := Some(location),
    section := BlockContainerSection, slot := slot)
  }

  function DroppedItemTarget(itemEntityId: string, worldId: string): Target {
    PLAIN.(kind := DroppedItem, worldId := worldId, itemEntityId := itemEntityId)
  }

  function BlockEntityTarget(location: BlockLocation, worldId: string): Target {
    PLAIN.(kind := BlockEntity, worldId := worldId, block := Some(location))
  }

  /** A target is valid exactly when every identifier it was built from is given, its
      slot counts from zero and its section is one a player has. */
  lemma BuiltTargetsValidIff(
    id: string, worldId: string, section: InventorySection, slot: int, location: BlockLocation)
    ensures AccessPolicy.ValidTarget(WorldTarget(worldId)) <==> worldId != ""
    ensures AccessPolicy.ValidTarget(OnlinePlayerTarget(id, worldId)) <==> id != "" && worldId != ""
    ensures AccessPolicy.ValidTarget(OfflinePlayerTarget(id, worldId)) <==> id != "" && worldId != ""
    ensures AccessPolicy.ValidTarget(LoadedEntityTarget(id, worldId)) <==> id != "" && worldId != ""
    ensures AccessPolicy.ValidTarget(StoredEntityTarget(id, worldId)) <==> id != "" && worldId != ""
    ensures AccessPolicy.ValidTarget(PlayerItemTarget(id, section, slot, worldId)) <==>
              && id != "" && worldId != "" && slot >= 0
              && section in {MainSection, ArmorSection, OffhandSection, EnderChestSection}
    ensures AccessPolicy.ValidTarget(BlockContainerItemTarget(location, slot, worldId)) <==> worldId != "" && slot >= 0
    ensures AccessPolicy.ValidTarget(DroppedItemTarget(id, worldId)) <==> id != "" && worldId != ""
    ensures AccessPolicy.ValidTarget(BlockEntityTarget(location, worldId)) <==> worldId != ""
  {
  }

  // Statuses

  /** A collection is refused for the first of four reasons that applies, and accepted
      when none does. */
  lemma RefRejectedWith(service: Service, context: AccessContext, ref: CollectionRef)
    ensures var known := AccessPolicy.ValidTarget(ref.target);
            var supported := known && TargetCapability(service.capabilities, ref.target.kind);
            var named := supported && ValidCollectionName(ref.collection, service.limits);
            var error := ValidateRef(service, context, ref);
            && (error == Some(InvalidTarget) <==> !known)
            && (error == Some(Unsupported) <==> known && !supported)
            && (error == Some(InvalidCollection) <==> supported && !named)
            && (error == Some(PermissionDenied) <==> named && !AccessPolicy.CanAccess(service.prefix, context, ref))
            && (error.None? <==> named && AccessPolicy.CanAccess(service.prefix, context, ref))
  {
    hide AccessPolicy.ValidTarget, TargetCapability, ValidCollectionName, AccessPolicy.CanAccess;
  }

  /** The first collection decides, then the second, then the rest of the operation. */
  lemma OperationRejectedWith(service: Service, context: AccessContext, op: Operation)
    ensures var refs := OperationCollections(op);
            var first, last := ValidateRef(service, context, refs[0]), ValidateRef(service, context, refs[|refs| - 1]);
            && (first.Some? ==> ValidateOperation(service, context, op) == first)
            && (first.None? && last.Some? ==> ValidateOperation(service, context, op) == last)
            && (first.None? && last.None? ==> ValidateOperation(service, context, op) == ValidateBody(service, op))
  {
    hide ValidateRef, ValidateBody;
  }

  /** The status fits the operation: what the adapter cannot do, a collection onto itself,
      a bad key or a property onto itself, and a bad value, too many entries or a clash. */
  predicate Fitting(service: Service, op: Operation, error: Option<Status>) {
    && (error == Some(Unsupported) <==> !Capable(service.capabilities, op))
    && (error == Some(InvalidCollection) <==>
          Capable(service.capabilities, op) && OntoItself(op) && !op.TransferProperty?)
    && (error == Some(InvalidKey) ==>
          !ValidKeys(KeysOf(op), service.limits) || (op.TransferProperty? && OntoItself(op)))
    && (error == Some(InvalidValue) ==>
          || BulkSize(op) > service.limits.maxPropertiesPerCollection || ConflictingExpectations(op)
          || exists k :: k in Payload(op) && !ValidValue(Payload(op)[k], service.limits))
    && (error.Some? ==> error.value in {Unsupported, InvalidCollection, InvalidKey, InvalidValue})
  }

  lemma EntriesFit(service: Service, op: Operation)
    requires op.SetMany? || op.ImportCollection?
    ensures Fitting(service, op, ValidateBody(service, op))
  {
    hide ValidKey, ValidValue, ValidKeys, ValidateEntries;
    EntriesRejectedWith(Payload(op), service.limits);
    assert KeysOf(op) == Payload(op).Keys;
  }

  lemma SingleFits(service: Service, op: Operation)
    requires op.SetProperty? || op.RemoveProperty?
    ensures Fitting(service, op, ValidateBody(service, op))
  {
    hide ValidKey, ValidValue, ValidKeys;
    OneKey(op.key, service.limits);
    assert op.SetProperty? ==> op.key in Payload(op) && Payload(op)[op.key] == op.value;
  }

  lemma TransferFits(service: Service, op: Operation)
    requires op.TransferProperty?
    ensures Fitting(service, op, ValidateBody(service, op))
  {
    hide ValidKey, ValidKeys, ConflictingExpectations;
    TwoKeys(op.sourceKey, op.destinationKey, service.limits);
  }

  lemma CollectionsFit(service: Service, op: Operation)
    requires op.RemoveMany? || op.ClearCollection? || op.RenameCollection? || op.TransferCollection?
    ensures Fitting(service, op, ValidateBody(service, op))
  {
    hide ValidKey, ValidKeys, ValidValue;
  }

  lemma BodyRejectedWith(service: Service, op: Operation)
    ensures Fitting(service, op, ValidateBody(service, op))
  {
    hide Fitting, ValidateBody;
    if op.SetMany? || op.ImportCollection? { EntriesFit(service, op); }
    else if op.SetProperty? || op.RemoveProperty? { SingleFits(service, op); }
    else if op.TransferProperty? { TransferFits(service, op); }
    else { CollectionsFit(service, op); }
  }

  lemma OneKey(key: string, limits: ValidationLimits)
    ensures ValidKeys({key}, limits) <==> ValidKey(key, limits)
  {
    hide ValidKey;
  }

  lemma TwoKeys(a: string, b: string, limits: ValidationLimits)
    ensures ValidKeys({a, b}, limits) <==> ValidKey(a, limits) && ValidKey(b, limits)
  {
    hide ValidKey;
  }

  lemma EntriesRejectedWith(properties: Properties, limits: ValidationLimits)
    ensures var error := ValidateEntries(properties, limits);
            && (error == Some(InvalidKey) ==> !ValidKeys(properties.Keys, limits))
            && (error == Some(InvalidValue) ==>
                  || |properties| > limits.maxPropertiesPerCollection
                  || exists k :: k in properties && !ValidValue(properties[k], limits))
            && (error.Some? ==> error.value in {InvalidKey, InvalidValue})
  {
    hide ValidKey, ValidValue;
    FirstEntryStatuses(properties, Ordering.SortedKeys(properties.Keys), limits);
  }

  lemma {:induction false} FirstEntryStatuses(properties: Properties, keys: seq<string>, limits: ValidationLimits)
    requires forall k :: k in keys ==> k in properties
    ensures var error := FirstEntryError(properties, keys, limits);
            && (error == Some(InvalidKey) ==> exists k :: k in keys && !ValidKey(k, limits))
            && (error == Some(InvalidValue) ==> exists k :: k in keys && !ValidValue(properties[k], limits))
            && (error.Some? ==> error.value in {InvalidKey, InvalidValue})
  {
    hide ValidKey, ValidValue;
    if keys != [] {
      FirstEntryStatuses(properties, keys[1..], limits);
      assert keys[0] in keys && forall k :: k in keys[1..] ==> k in keys;
    }
  }

  /** The first entry in iteration order that fails decides between the two. */
  lemma {:induction false} FirstEntryDecides(
    properties: Properties, keys: seq<string>, limits: ValidationLimits, i: nat)
    requires i < |keys| && forall k :: k in keys ==> k in properties
    requires forall j :: 0 <= j < i ==> ValidKey(keys[j], limits) && ValidValue(properties[keys[j]], limits)
    requires !ValidKey(keys[i], limits) || !ValidValue(properties[keys[i]], limits)
    ensures FirstEntryError(properties, keys, limits)
         == Some(if ValidKey(keys[i], limits) then InvalidValue else InvalidKey)
    decreases i
  {
    hide ValidKey, ValidValue;
    if i > 0 {
      assert keys[0] in keys && forall k :: k in keys[1..] ==> k in keys;
      FirstEntryDecides(properties, keys[1..], limits, i - 1);
    }
  }

  // Lengths

  function Repeated(c: char, n: nat): (s: string)
    ensures |s| == n
  {
    if n == 0 then "" else [c] + Repeated(c, n - 1)
  }

  lemma {:induction false} PlainTextIsValid(n: nat)
    ensures Utf8.Valid(Repeated('a', n)) && NUL !in Repeated('a', n)
  {
    if n > 0 {
      PlainTextIsValid(n - 1);
      assert Utf8.HeadLength(Repeated('a', n)) == 1;
      assert Repeated('a', n)[1..] == Repeated('a', n - 1);
    }
  }

  /** Lengths count to the limit and no further; keys and names are not empty, texts may
      be. */
  lemma LengthDecides(n: nat, limits: ValidationLimits)
    ensures ValidKey(Repeated('a', n), limits) <==> 1 <= n <= limits.maxKeyBytes
    ensures ValidCollectionName(Repeated('a', n), limits) <==> 1 <= n <= limits.maxCollectionBytes
    ensures ValidValue(Text(Repeated('a', n)), limits) <==> n <= limits.maxStringBytes
  {
    PlainTextIsValid(n);
    hide Utf8.Valid, Repeated;
  }

  /** A zero byte is refused in keys and names, and allowed in texts. */
  lemma ZeroByte(left: string, right: string, limits: ValidationLimits)
    ensures !ValidKey(left + [NUL] + right, limits) && !ValidCollectionName(left + [NUL] + right, limits)
    ensures limits.maxStringBytes >= 1 ==> ValidValue(Text([NUL]), limits)
  {
    assert (left + [NUL] + right)[|left|] == NUL;
    hide Utf8.Valid;
    assert Utf8.Valid([NUL]) by {
      ZeroIsValid();
    }
  }

  lemma ZeroIsValid()
    ensures Utf8.Valid([NUL])
  {
    assert Utf8.HeadLength([NUL]) == 1 && [NUL][1..] == "";
  }

  /** Malformed UTF-8 is refused everywhere. */
  lemma MalformedIsRefused(text: string, limits: ValidationLimits)
    requires !Utf8.Valid(text)
    ensures !ValidKey(text, limits) && !ValidCollectionName(text, limits) && !ValidValue(Text(text), limits)
  {
  }

  // Numbers

  /** A double of the given sign, exponent field and fraction field is finite exactly
      when the exponent field is not all ones. */
  lemma FiniteIff(sign: nat, exponent: nat, fraction: nat)
    requires sign < 2 && exponent < 2048 && fraction < 0x10_0000_0000_0000
    ensures 0 <= sign * 0x8000_0000_0000_0000 + exponent * 0x10_0000_0000_0000 + fraction < TWO_TO_THE_64
    ensures IsFinite(Double(sign * 0x8000_0000_0000_0000 + exponent * 0x10_0000_0000_0000 + fraction)) <==>
              exponent != 2047
  {
    assert sign * 0x8000_0000_0000_0000 + exponent * 0x10_0000_0000_0000 + fraction
        == (sign * 2048 + exponent) * 0x10_0000_0000_0000 + fraction;
  }
}
