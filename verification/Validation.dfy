/** The checks a service makes before it hands an operation to the adapter. */
module Validation {
  import opened Types
  import opened Store
  import StoreLaws
  import AccessPolicy
  import Ordering
  import Utf8

  datatype Capabilities = Capabilities(
    world: bool, onlinePlayers: bool, offlinePlayers: bool, loadedEntities: bool, storedEntities: bool,
    playerInventoryItems: bool, playerArmorItems: bool, playerOffhandItems: bool, playerEnderChestItems: bool,
    blockContainerItems: bool, droppedItems: bool, blockEntities: bool, blockDynamicProperties: bool,
    read: bool, write: bool, remove: bool, clear: bool, bulkSet: bool, collectionRename: bool,
    propertyCopyMove: bool, collectionCopyMove: bool, exportImport: bool, atomicTransactions: bool)

  /** What the in-memory adapter can do. */
  const IN_MEMORY: Capabilities := Capabilities(
    true, true, true, true, true, true, true, true, true, true, true, true,
    true, true, true, true, true, true, true, true, true, true, true)

  /** The parts of a service that its checks depend on. */
  datatype Service = Service(limits: ValidationLimits, capabilities: Capabilities, prefix: string)

  predicate TargetCapability(c: Capabilities, kind: TargetKind) {
    match kind
    case World => c.world
    case OnlinePlayer => c.onlinePlayers
    case OfflinePlayer => c.offlinePlayers
    case LoadedEntity => c.loadedEntities
    case StoredEntity => c.storedEntities
    case PlayerInventorySlot => c.playerInventoryItems
    case PlayerArmorSlot => c.playerArmorItems
    case PlayerOffhandSlot => c.playerOffhandItems
    case PlayerEnderChestSlot => c.playerEnderChestItems
    case BlockContainerSlot => c.blockContainerItems
    case DroppedItem => c.droppedItems
    case BlockEntity => c.blockEntities && c.blockDynamicProperties
  }

  const NUL: char := 0 as char

  predicate ValidKey(key: string, limits: ValidationLimits) {
    key != "" && |key| <= limits.maxKeyBytes && NUL !in key && Utf8.Valid(key)
  }

  predicate ValidCollectionName(name: string, limits: ValidationLimits) {
    name != "" && |name| <= limits.maxCollectionBytes && NUL !in name && Utf8.Valid(name)
  }

  predicate ValidValue(value: Value, limits: ValidationLimits) {
    match value
    case Boolean(_) => true
    case Number(d) => IsFinite(d)
    case Text(s) => |s| <= limits.maxStringBytes && Utf8.Valid(s)
    case Vector3(x, y, z) => IsFinite(x) && IsFinite(y) && IsFinite(z)
  }

  predicate ValidKeys(keys: set<string>, limits: ValidationLimits) {
    forall k :: k in keys ==> ValidKey(k, limits)
  }

  predicate ValidProperties(properties: Properties, limits: ValidationLimits) {
    ValidKeys(properties.Keys, limits) && forall k :: k in properties ==> ValidValue(properties[k], limits)
  }

  function ValidateRef(service: Service, context: AccessContext, ref: CollectionRef): Option<Status> {
    if !AccessPolicy.ValidTarget(ref.target) then Some(InvalidTarget)
    else if !TargetCapability(service.capabilities, ref.target.kind) then Some(Unsupported)
    else if !ValidCollectionName(ref.collection, service.limits) then Some(InvalidCollection)
    else if !AccessPolicy.CanAccess(service.prefix, context, ref) then Some(PermissionDenied)
    else None
  }

  /** The first key or value that fails, in iteration order, decides the status. */
  function FirstEntryError(properties: Properties, keys: seq<string>, limits: ValidationLimits): (error: Option<Status>)
    requires forall k :: k in keys ==> k in properties
    ensures error.None? <==> forall k :: k in keys ==> ValidKey(k, limits) && ValidValue(properties[k], limits)
    ensures error != Some(Applied) && error != Some(Cancelled)
  {
    if keys == [] then None
    else if !ValidKey(keys[0], limits) then Some(InvalidKey)
    else if !ValidValue(properties[keys[0]], limits) then Some(InvalidValue)
    else
      assert keys == [keys[0]] + keys[1..];
      FirstEntryError(properties, keys[1..], limits)
  }

  function ValidateEntries(properties: Properties, limits: ValidationLimits): (error: Option<Status>)
    ensures error.None? <==> |properties| <= limits.maxPropertiesPerCollection && ValidProperties(properties, limits)
    ensures error != Some(Applied) && error != Some(Cancelled)
  {
    if |properties| > limits.maxPropertiesPerCollection then Some(InvalidValue)
    else FirstEntryError(properties, Ordering.SortedKeys(properties.Keys), limits)
  }

  function ValidateBody(service: Service, op: Operation): (error: Option<Status>)
    ensures error != Some(Applied) && error != Some(Cancelled)
  {
    var limits, can := service.limits, service.capabilities;
    match op
    case SetProperty(_, key, value, _) =>
      if !can.write then Some(Unsupported)
      else if !ValidKey(key, limits) then Some(InvalidKey)
      else if !ValidValue(value, limits) then Some(InvalidValue)
      else None
    case SetMany(_, values, _) =>
      if !can.bulkSet then Some(Unsupported) else ValidateEntries(values, limits)
    case RemoveProperty(_, key, _, _) =>
      if !can.remove then Some(Unsupported)
      else if !ValidKey(key, limits) then Some(InvalidKey)
      else None
    case RemoveMany(_, keys, _, _) =>
      if !can.remove then Some(Unsupported)
      else if |keys| > limits.maxPropertiesPerCollection then Some(InvalidValue)
      else if !ValidKeys(KeySet(keys), limits) then Some(InvalidKey)
      else None
    case ClearCollection(_, _, _) => if !can.clear then Some(Unsupported) else None
    case RenameCollection(_, from, to, _, _, _) =>
      if !can.collectionRename then Some(Unsupported)
      else if from == to then Some(InvalidCollection)
      else None
    case TransferProperty(source, sourceKey, destination, destinationKey, _, _, removeSource, _) =>
      if !can.propertyCopyMove then Some(Unsupported)
      else if !ValidKey(sourceKey, limits) || !ValidKey(destinationKey, limits) then Some(InvalidKey)
      else if ConflictingExpectations(op) then Some(InvalidValue)
      else if removeSource && source == destination && sourceKey == destinationKey then Some(InvalidKey)
      else None
    case TransferCollection(source, destination, _, _, _, removeSource) =>
      if !can.collectionCopyMove then Some(Unsupported)
      else if removeSource && source == destination then Some(InvalidCollection)
      else None
    case ImportCollection(_, properties, _, _) =>
      if !can.exportImport then Some(Unsupported) else ValidateEntries(properties, limits)
  }

  /** The status with which an operation is rejected, or none. */
  function ValidateOperation(service: Service, context: AccessContext, op: Operation): (error: Option<Status>)
    ensures error.None? ==> forall ref :: StoreLaws.Names(op, ref) ==> ValidateRef(service, context, ref).None?
    ensures error.None? ==> ValidateBody(service, op).None?
    ensures error != Some(Applied) && error != Some(Cancelled)
  {
    var refs := OperationCollections(op);
    var first := ValidateRef(service, context, refs[0]);
    if first.Some? then first
    else
      var last := ValidateRef(service, context, refs[|refs| - 1]);
      if last.Some? then last else ValidateBody(service, op)
  }

  /** An operation that moves a whole collection onto itself. */
  predicate SelfMove(op: Operation) {
    op.TransferCollection? && op.removeSource && op.source == op.destination
  }

  lemma ValidatedIsNoSelfMove(service: Service, context: AccessContext, op: Operation)
    requires ValidateOperation(service, context, op).None?
    ensures !SelfMove(op) && !ConflictingExpectations(op)
  {
  }

  /** The capability an operation needs. */
  predicate Capable(c: Capabilities, op: Operation) {
    match op
    case SetProperty(_, _, _, _) => c.write
    case SetMany(_, _, _) => c.bulkSet
    case ClearCollection(_, _, _) => c.clear
    case RenameCollection(_, _, _, _, _, _) => c.collectionRename
    case TransferProperty(_, _, _, _, _, _, _, _) => c.propertyCopyMove
    case TransferCollection(_, _, _, _, _, _) => c.collectionCopyMove
    case ImportCollection(_, _, _, _) => c.exportImport
    case _ => c.remove
  }

  /** Every key an operation mentions. */
  function KeysOf(op: Operation): set<string> {
    match op
    case SetProperty(_, key, _, _) => {key}
    case SetMany(_, values, _) => values.Keys
    case RemoveProperty(_, key, _, _) => {key}
    case RemoveMany(_, keys, _, _) => KeySet(keys)
    case TransferProperty(_, sourceKey, _, destinationKey, _, _, _, _) => {sourceKey, destinationKey}
    case ImportCollection(_, properties, _, _) => properties.Keys
    case _ => {}
  }

  /** The properties an operation carries. */
  function Payload(op: Operation): Properties {
    match op
    case SetProperty(_, key, value, _) => map[key := value]
    case SetMany(_, values, _) => values
    case ImportCollection(_, properties, _, _) => properties
    case _ => map[]
  }

  /** How many entries a bulk operation lists. */
  function BulkSize(op: Operation): nat {
    match op
    case SetMany(_, values, _) => |values|
    case RemoveMany(_, keys, _, _) => |keys|
    case ImportCollection(_, properties, _, _) => |properties|
    case _ => 0
  }

  /** An operation that would write a collection or property onto itself. */
  predicate OntoItself(op: Operation) {
    || (op.RenameCollection? && op.from == op.to)
    || SelfMove(op)
    || (op.TransferProperty? && op.removeSource && op.source == op.destination && op.sourceKey == op.destinationKey)
  }

  /** An operation is accepted exactly when every collection it names may be used,
      the adapter can do it, every key and value in it is valid, it is not too
      large, its expectations do not contradict each other, and it moves nothing
      onto itself. */
  lemma AcceptedIff(service: Service, context: AccessContext, op: Operation)
    ensures ValidateOperation(service, context, op).None? <==>
              && (forall ref :: StoreLaws.Names(op, ref) ==> ValidateRef(service, context, ref).None?)
              && Capable(service.capabilities, op)
              && ValidKeys(KeysOf(op), service.limits)
              && (forall k :: k in Payload(op) ==> ValidValue(Payload(op)[k], service.limits))
              && BulkSize(op) <= service.limits.maxPropertiesPerCollection
              && !ConflictingExpectations(op) && !OntoItself(op)
  {
    hide ValidateRef, ValidateBody, ValidKeys, ValidValue, FirstEntryError;
    var refs := OperationCollections(op);
    assert StoreLaws.Names(op, refs[0]) && StoreLaws.Names(op, refs[|refs| - 1]);
    BodyAcceptedIff(service, op);
    hide Capable, KeysOf, Payload, BulkSize, ConflictingExpectations, OntoItself;
  }

  lemma BodyAcceptedIff(service: Service, op: Operation)
    ensures ValidateBody(service, op).None? <==>
              && Capable(service.capabilities, op)
              && ValidKeys(KeysOf(op), service.limits)
              && (forall k :: k in Payload(op) ==> ValidValue(Payload(op)[k], service.limits))
              && BulkSize(op) <= service.limits.maxPropertiesPerCollection
              && !ConflictingExpectations(op) && !OntoItself(op)
  {
    hide ValidKey, ValidValue, ValidateEntries, FirstEntryError;
    match op
    case SetProperty(_, key, value, _) =>
      assert Payload(op)[key] == value && key in KeysOf(op);
    case RemoveProperty(_, key, _, _) => assert key in KeysOf(op);
    case TransferProperty(_, sourceKey, _, destinationKey, _, _, _, _) =>
      assert sourceKey in KeysOf(op) && destinationKey in KeysOf(op);
    case SetMany(_, values, _) => assert Payload(op) == values && KeysOf(op) == values.Keys;
    case ImportCollection(_, properties, _, _) => assert Payload(op) == properties && KeysOf(op) == properties.Keys;
    case _ =>
  }

  /** Every collection has a complete target, a valid name, valid keys and valid values. */
  predicate GoodCollection(limits: ValidationLimits, ref: CollectionRef, properties: Properties) {
    GoodRef(limits, ref) && ValidProperties(properties, limits)
  }

  predicate GoodRef(limits: ValidationLimits, ref: CollectionRef) {
    AccessPolicy.ValidTarget(ref.target) && ValidCollectionName(ref.collection, limits)
  }

  predicate GoodStore(limits: ValidationLimits, store: Store) {
    forall ref :: ref in store ==> GoodCollection(limits, ref, store[ref])
  }

  lemma MergedIsValid(a: Properties, b: Properties, limits: ValidationLimits)
    requires ValidProperties(a, limits) && ValidProperties(b, limits)
    ensures ValidProperties(a + b, limits)
  {
  }

  lemma DepositKeepsGood(
    limits: ValidationLimits, store: Store, ref: CollectionRef, p: Properties, policy: ImportPolicy)
    requires GoodStore(limits, store) && GoodCollection(limits, ref, p) && Deposit(store, ref, p, policy).Done?
    ensures GoodStore(limits, Deposit(store, ref, p, policy).store)
  {
    if ref in store { MergedIsValid(store[ref], p, limits); }
  }

  lemma SetKeepsGood(limits: ValidationLimits, store: Store, ref: CollectionRef, values: Properties)
    requires GoodStore(limits, store) && GoodCollection(limits, ref, values)
    ensures GoodStore(limits, store[ref := Lookup(store, ref) + values])
  {
    MergedIsValid(Lookup(store, ref), values, limits);
  }

  lemma NamedIsGood(service: Service, context: AccessContext, op: Operation, ref: CollectionRef)
    requires ValidateOperation(service, context, op).None? && StoreLaws.Names(op, ref)
    ensures GoodRef(service.limits, ref)
    ensures AccessPolicy.CanAccess(service.prefix, context, ref)
  {
    assert ValidateRef(service, context, ref).None?;
  }

  /** Operations that pass validation keep every stored collection valid. */
  lemma PerformKeepsGood(service: Service, context: AccessContext, op: Operation, store: Store)
    requires ValidateOperation(service, context, op).None? && GoodStore(service.limits, store)
    requires Perform(store, op).Done?
    ensures GoodStore(service.limits, Perform(store, op).store)
  {
    hide Perform, ValidateOperation, ValidateBody, GoodRef;
    var refs := OperationCollections(op);
    assert StoreLaws.Names(op, refs[0]) && StoreLaws.Names(op, refs[|refs| - 1]);
    NamedIsGood(service, context, op, refs[0]);
    NamedIsGood(service, context, op, refs[|refs| - 1]);
    BodyKeepsGood(service, op, store);
  }

  lemma BodyKeepsGood(service: Service, op: Operation, store: Store)
    requires ValidateBody(service, op).None? && GoodStore(service.limits, store) && Perform(store, op).Done?
    requires var refs := OperationCollections(op);
             && GoodRef(service.limits, refs[0])
             && GoodRef(service.limits, refs[|refs| - 1])
    ensures GoodStore(service.limits, Perform(store, op).store)
  {
    var limits := service.limits;
    hide ValidateEntries, FirstEntryError, GoodRef, ValidKey, ValidValue;
    match op
    case SetProperty(ref, key, value, _) => SetKeepsGood(limits, store, ref, map[key := value]);
    case SetMany(ref, values, _) => SetKeepsGood(limits, store, ref, values);
    case RemoveProperty(_, _, _, _) =>
    case RemoveMany(_, _, _, _) =>
    case ClearCollection(_, _, _) =>
    case RenameCollection(target, from, to, _, policy, _) =>
      DepositKeepsGood(limits, store, CollectionRef(target, to), store[CollectionRef(target, from)], policy);
    case TransferProperty(source, sourceKey, destination, destinationKey, _, _, _, _) =>
      SetKeepsGood(limits, store, destination, map[destinationKey := store[source][sourceKey]]);
    case TransferCollection(source, destination, _, _, policy, _) =>
      DepositKeepsGood(limits, store, destination, store[source], policy);
    case ImportCollection(destination, properties, _, policy) =>
      DepositKeepsGood(limits, store, destination, properties, policy);
  }
}
