/** The events a service publishes for a request. */
module ServiceEvents {
  import opened Types
  import opened Store
  import opened Commit
  import opened Adapter
  import Events
  import Ordering

  function OperationName(op: Operation): string {
    match op
    case SetProperty(_, _, _, _) => "set_property"
    case SetMany(_, _, _) => "set_many"
    case RemoveProperty(_, _, _, _) => "remove_property"
    case RemoveMany(_, _, _, _) => "remove_many"
    case ClearCollection(_, _, _) => "clear_collection"
    case RenameCollection(_, _, _, _, _, _) => "rename_collection"
    case TransferProperty(_, _, _, _, _, _, _, _) => "transfer_property"
    case TransferCollection(_, _, _, _, _, _) => "transfer_collection"
    case ImportCollection(_, _, _, _) => "import_collection"
  }

  /** `operationPrimaryKey`. */
  function PrimaryKey(op: Operation): Option<string> {
    match op
    case SetProperty(_, key, _, _) => Some(key)
    case RemoveProperty(_, key, _, _) => Some(key)
    case TransferProperty(_, _, _, destinationKey, _, _, _, _) => Some(destinationKey)
    case _ => None
  }

  /** The collections an event names: those of the operation, or those of the
      transaction, sorted and without repeats. */
  function EventCollections(request: Request): seq<CollectionRef>
    requires request.operations != []
  {
    if request.kind.Single? then OperationCollections(request.operations[0])
    else Ordering.SortedRefs(CollectionsOf(request.operations))
  }

  /** An event names exactly the collections of its request; the event of a transaction
      lists them in the one ascending order. */
  lemma EventNamesRequest(request: Request)
    requires request.operations != [] && (request.kind.Single? ==> |request.operations| == 1)
    ensures forall ref :: ref in EventCollections(request) <==> ref in CollectionsOf(request.operations)
    ensures request.kind.Atomic? ==> Ordering.Ascending(Ordering.RefLess, EventCollections(request))
    ensures request.kind.Atomic? ==>
              forall s :: Ordering.Ascending(Ordering.RefLess, s)
                          && (forall ref :: ref in s <==> ref in CollectionsOf(request.operations)) ==>
                            s == EventCollections(request)
  {
    hide CollectionsOf, OperationCollections, Ordering.SortedRefs, Ordering.RefLess, Ordering.Ascending,
         Ordering.Orders;
    if request.kind.Single? {
      SingleCollections(request.operations[0]);
      assert request.operations == [request.operations[0]];
    } else {
      Ordering.RefOrders();
      forall s | Ordering.Ascending(Ordering.RefLess, s)
                 && (forall ref :: ref in s <==> ref in CollectionsOf(request.operations))
        ensures s == EventCollections(request)
      {
        Ordering.SortedUnique(Ordering.RefLess, s, EventCollections(request));
      }
    }
  }

  lemma SingleCollections(op: Operation)
    ensures forall ref :: ref in OperationCollections(op) <==> ref in CollectionsOf([op])
  {
    hide OperationCollections;
    var refs, ops := OperationCollections(op), [op];
    forall ref | ref in refs ensures ref in CollectionsOf(ops) {
      var j :| 0 <= j < |refs| && refs[j] == ref;
      assert OperationCollections(ops[0])[j] == ref;
    }
  }

  /** Snapshots of the collections whose targets are available. */
  function AvailableSnapshots(make: SnapshotMaker, availability: Availability, store: Store, refs: seq<CollectionRef>)
    : seq<Snapshot>
  {
    if refs == [] then []
    else
      var n := |refs| - 1;
      AvailableSnapshots(make, availability, store, refs[..n])
      + if TargetAvailable(availability, refs[n].target) then [SnapshotIn(make, store, refs[n])] else []
  }

  method CaptureEach(adapter: InMemoryAdapter, refs: seq<CollectionRef>) returns (snapshots: seq<Snapshot>)
    ensures snapshots == AvailableSnapshots(adapter.make, adapter.availability, adapter.store.entries, refs)
  {
    hide TargetAvailable, SnapshotIn;
    snapshots := [];
    for i := 0 to |refs|
      invariant snapshots == AvailableSnapshots(adapter.make, adapter.availability, adapter.store.entries, refs[..i])
    {
      assert refs[..i + 1][..i] == refs[..i];
      var captured := adapter.CaptureUnlocked(adapter.store, refs[i]);
      if captured.Some? { snapshots := snapshots + [captured.value]; }
    }
    assert refs[..|refs|] == refs;
  }

  /** The cancellable event before a request. */
  function BeforeEvent(id: nat, request: Request, before: seq<Snapshot>): Events.Event
    requires request.operations != []
  {
    var op := request.operations[0];
    if request.kind.Single? then
      Events.Event(Events.BeforeMutation, id, OperationName(op), request.context, EventCollections(request),
                   PrimaryKey(op), before, [], true, false, "")
    else
      Events.Event(Events.BeforeTransaction, id, "transaction", request.context, EventCollections(request),
                   None, before, [], true, false, "")
  }

  /** The event after an attempted write: what the request and the adapter say,
      whatever listeners made of the before-event. */
  function AfterEvent(id: nat, request: Request, before: seq<Snapshot>, after: seq<Snapshot>): Events.Event
    requires request.operations != []
  {
    var op := request.operations[0];
    if request.kind.Single? then
      Events.Event(Events.AfterMutation, id, OperationName(op), request.context, EventCollections(request),
                   PrimaryKey(op), before, after, false, false, "")
    else
      Events.Event(Events.AfterTransaction, id, "transaction", request.context, EventCollections(request),
                   None, before, after, false, false, "")
  }

  /** A single collection move is announced a second time when it was applied. */
  predicate Migrates(request: Request, settled: Settled)
    requires request.operations != []
  {
    var op := request.operations[0];
    request.kind.Single? && settled.status == Applied && op.TransferCollection? && op.removeSource
  }
}
