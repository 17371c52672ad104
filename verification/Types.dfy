/** The value types of the library: targets, collection references, property
    values, operations and their results.

    A C++ `std::string` is a sequence of bytes.  It is modelled as a Dafny
    `string` in which each character stands for one byte; characters above
    0xFF never describe a byte and every validator refuses them. */
module Types {

  datatype Option<+T> = None | Some(value: T)

  const TWO_TO_THE_64: int := 0x1_0000_0000_0000_0000

  type Word64 = n: int | 0 <= n < 0x1_0000_0000_0000_0000

  /** A `double`, identified by its IEEE 754 bit pattern. */
  datatype Double = Double(bits: Word64)

  /** `std::isfinite`: the exponent field is not all ones. */
  predicate IsFinite(d: Double) {
    (d.bits / 0x10_0000_0000_0000) % 2048 != 2047
  }

  /** The bit pattern of 1.0. */
  const ONE: Double := Double(0x3FF0_0000_0000_0000)

  datatype Value =
    | Boolean(flag: bool)
    | Number(number: Double)
    | Text(text: string)
    | Vector3(x: Double, y: Double, z: Double)

  type Properties = map<string, Value>

  datatype TargetKind =
    | World
    | OnlinePlayer
    | OfflinePlayer
    | LoadedEntity
    | StoredEntity
    | PlayerInventorySlot
    | PlayerArmorSlot
    | PlayerOffhandSlot
    | PlayerEnderChestSlot
    | BlockContainerSlot
    | DroppedItem
    | BlockEntity

  datatype InventorySection =
    NoSection | MainSection | ArmorSection | OffhandSection | EnderChestSection | BlockContainerSection

  datatype BlockLocation = BlockLocation(dimension: string, x: int, y: int, z: int)

  datatype Target = Target(
    kind: TargetKind,
    worldId: string,
    xuid: string,
    entityId: string,
    block: Option<BlockLocation>,
    section: InventorySection,
    slot: int,
    itemEntityId: string)

  datatype CollectionRef = CollectionRef(target: Target, collection: string)

  datatype Status =
    | Applied
    | NotFound
    | Conflict
    | Cancelled
    | TargetUnavailable
    | InvalidTarget
    | InvalidCollection
    | InvalidKey
    | InvalidValue
    | PermissionDenied
    | Unsupported
    | TransactionFailed

  datatype ImportPolicy = FailIfDestinationExists | Merge | Replace

  /** The keys of a list. */
  function KeySet(keys: seq<string>): set<string> {
    set k | k in keys
  }

  /** An optional revision expectation. */
  type Guard = Option<Word64>

  datatype Operation =
    | SetProperty(ref: CollectionRef, key: string, value: Value, expected: Guard)
    | SetMany(ref: CollectionRef, values: Properties, expected: Guard)
    | RemoveProperty(ref: CollectionRef, key: string, expected: Guard, requireExisting: bool)
    | RemoveMany(ref: CollectionRef, keys: seq<string>, expected: Guard, requireAllExisting: bool)
    | ClearCollection(ref: CollectionRef, expected: Guard, removeCollection: bool)
    | RenameCollection(
        target: Target, from: string, to: string,
        expectedSource: Guard, policy: ImportPolicy, expectedDestination: Guard)
    | TransferProperty(
        source: CollectionRef, sourceKey: string,
        destination: CollectionRef, destinationKey: string,
        expectedSource: Guard, expectedDestination: Guard,
        removeSource: bool, overwrite: bool)
    | TransferCollection(
        source: CollectionRef, destination: CollectionRef,
        expectedSource: Guard, expectedDestination: Guard,
        policy: ImportPolicy, removeSource: bool)
    | ImportCollection(
        destination: CollectionRef, properties: Properties,
        expectedDestination: Guard, policy: ImportPolicy)

  /** The collections an operation names, in order and possibly with a repeat. */
  function OperationCollections(op: Operation): seq<CollectionRef> {
    match op
    case RenameCollection(target, from, to, _, _, _) => [CollectionRef(target, from), CollectionRef(target, to)]
    case TransferProperty(source, _, destination, _, _, _, _, _) => [source, destination]
    case TransferCollection(source, destination, _, _, _, _) => [source, destination]
    case ImportCollection(destination, _, _, _) => [destination]
    case _ => [op.ref]
  }

  /** The collections named by a list of operations. */
  function CollectionsOf(ops: seq<Operation>): set<CollectionRef> {
    set i, j | 0 <= i < |ops| && 0 <= j < |OperationCollections(ops[i])| :: OperationCollections(ops[i])[j]
  }

  datatype Snapshot = Snapshot(
    ref: CollectionRef,
    properties: Properties,
    byteCount: Word64,
    revision: Word64,
    present: bool,
    loaded: bool,
    persistent: bool,
    writable: bool)

  datatype OperationResult = OperationResult(
    status: Status,
    before: seq<Snapshot>,
    after: seq<Snapshot>,
    resultingRevision: Word64)
  {
    predicate Ok() { status == Applied }
  }

  function Failed(status: Status, before: seq<Snapshot>): OperationResult {
    OperationResult(status, before, [], 0)
  }

  datatype AccessContext = AccessContext(pluginId: string, rawAdmin: bool)

  datatype ValidationLimits = ValidationLimits(
    maxCollectionBytes: nat,
    maxKeyBytes: nat,
    maxStringBytes: nat,
    maxPropertiesPerCollection: nat,
    maxTransactionOperations: nat,
    maxImportBytes: nat)
}
