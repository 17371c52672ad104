/** Which events a filter lets through, and what the events of a request say. */
module EventLaws {
  import opened Types
  import opened Store
  import opened StoreLaws
  import opened Commit
  import opened Events
  import opened ServiceEvents
  import Services
  import Validation

  /** A condition that is not set, or that is met. */
  predicate Meets<T(==)>(condition: Option<T>, actual: T) {
    condition == None || condition == Some(actual)
  }

  /** A filter matches an event exactly when its kind and its key are met and, if it says
      anything of collections, one collection of the event meets all of that. */
  lemma MatchesIff(filter: EventFilter, event: Event)
    ensures filter.Matches(event) <==>
              && Meets(filter.kind, event.kind)
              && (filter.key == None || filter.key == event.key)
              && ((filter.targetKind == None && filter.target == None && filter.collection == None)
                  || exists ref :: ref in event.collections && Meets(filter.targetKind, ref.target.kind)
                                   && Meets(filter.target, ref.target) && Meets(filter.collection, ref.collection))
  {
    if exists ref :: ref in event.collections && Meets(filter.targetKind, ref.target.kind)
                     && Meets(filter.target, ref.target) && Meets(filter.collection, ref.collection) {
      var ref :| ref in event.collections && Meets(filter.targetKind, ref.target.kind)
                 && Meets(filter.target, ref.target) && Meets(filter.collection, ref.collection);
      var i :| 0 <= i < |event.collections| && event.collections[i] == ref;
      assert filter.MatchesRef(event.collections[i]);
    }
    if filter.Matches(event) && !(filter.targetKind == None && filter.target == None && filter.collection == None) {
      var i :| 0 <= i < |event.collections| && filter.MatchesRef(event.collections[i]);
      assert event.collections[i] in event.collections;
    }
  }

  /** The empty filter lets every event through. */
  lemma EmptyFilterMatches(event: Event)
    ensures EventFilter(None, None, None, None, None).Matches(event)
  {
  }

  /** The same constructor. */
  predicate SameOperation(a: Operation, b: Operation) {
    || (a.SetProperty? && b.SetProperty?) || (a.SetMany? && b.SetMany?)
    || (a.RemoveProperty? && b.RemoveProperty?) || (a.RemoveMany? && b.RemoveMany?)
    || (a.ClearCollection? && b.ClearCollection?) || (a.RenameCollection? && b.RenameCollection?)
    || (a.TransferProperty? && b.TransferProperty?) || (a.TransferCollection? && b.TransferCollection?)
    || (a.ImportCollection? && b.ImportCollection?)
  }

  /** The name of an operation tells its kind, and no operation is named like a
      transaction. */
  lemma NamesTellOperations(a: Operation, b: Operation)
    ensures OperationName(a) == OperationName(b) <==> SameOperation(a, b)
    ensures OperationName(a) != "transaction"
  {
    NameStart(a);
    NameStart(b);
  }

  lemma NameStart(op: Operation)
    ensures |OperationName(op)| ==
              match op
              case SetProperty(_, _, _, _) => 12
              case SetMany(_, _, _) => 8
              case RemoveProperty(_, _, _, _) => 15
              case RemoveMany(_, _, _, _) => 11
              case ClearCollection(_, _, _) => 16
              case RenameCollection(_, _, _, _, _, _) => 17
              case TransferProperty(_, _, _, _, _, _, _, _) => 17
              case TransferCollection(_, _, _, _, _, _) => 19
              case ImportCollection(_, _, _, _) => 17
    ensures op.RenameCollection? ==> OperationName(op)[0] == 'r'
    ensures op.TransferProperty? ==> OperationName(op)[0] == 't'
    ensures op.ImportCollection? ==> OperationName(op)[0] == 'i'
    ensures op.RemoveMany? ==> OperationName(op)[0] == 'r'
  {
  }

  /** Both events of a request carry its identifier, its caller, its name, its key and
      its collections; the first can be cancelled and shows only what was before, the
      second cannot. */
  lemma EventsCarryRequest(id: nat, request: Request, b: seq<Snapshot>, before: seq<Snapshot>, after: seq<Snapshot>)
    requires request.operations != []
    ensures var first, last := BeforeEvent(id, request, b), AfterEvent(id, request, before, after);
            && first.transactionId == id == last.transactionId && first.actor == request.context == last.actor
            && first.operationName == last.operationName && first.key == last.key
            && first.collections == last.collections == EventCollections(request)
            && first.cancellable && !first.cancelled && !last.cancellable && !last.cancelled
            && first.before == b && first.after == [] && last.before == before && last.after == after
            && (if request.kind.Single? then
                  && first.kind == BeforeMutation && last.kind == AfterMutation
                  && first.operationName == OperationName(request.operations[0])
                else
                  && first.kind == BeforeTransaction && last.kind == AfterTransaction
                  && first.operationName == "transaction" && first.key.None?)
  {
    hide EventCollections;
  }

  /** The key of the event of an operation is the one property that an operation writes
      or removes by name. */
  lemma KeyIsWritten(store: Store, op: Operation, key: string)
    requires PrimaryKey(op) == Some(key) && Perform(store, op).Done?
    ensures var after := Perform(store, op).store;
            var ref := OperationCollections(op)[|OperationCollections(op)| - 1];
            && (op.SetProperty? ==> key in Lookup(after, ref) && Lookup(after, ref)[key] == op.value)
            && (op.RemoveProperty? ==> key !in Lookup(after, ref))
            && (op.TransferProperty? && !(op.source == op.destination && op.removeSource) ==>
                  key in Lookup(after, ref) && op.sourceKey in Lookup(store, op.source)
                  && Lookup(after, ref)[key] == Lookup(store, op.source)[op.sourceKey])
            && (op.SetProperty? || op.RemoveProperty? || op.TransferProperty?)
  {
  }

  lemma KeyIsNamed(op: Operation)
    ensures PrimaryKey(op).Some? <==> op.SetProperty? || op.RemoveProperty? || op.TransferProperty?
  {
  }

  /** An event of a transaction shows every collection whose target is available. */
  lemma {:induction false} AvailableAreShown(
    make: SnapshotMaker, availability: Availability, store: Store, refs: seq<CollectionRef>, i: nat)
    requires i < |refs| && TargetAvailable(availability, refs[i].target)
    ensures SnapshotIn(make, store, refs[i]) in AvailableSnapshots(make, availability, store, refs)
  {
    hide TargetAvailable, SnapshotIn;
    var n := |refs| - 1;
    if i < n { AvailableAreShown(make, availability, store, refs[..n], i); }
  }

  /** It shows all of its collections, in their order, exactly when all are available, and
      fewer otherwise. */
  lemma {:induction false} AllAreShownIff(
    make: SnapshotMaker, availability: Availability, store: Store, refs: seq<CollectionRef>)
    ensures var shown := AvailableSnapshots(make, availability, store, refs);
            if (forall i :: 0 <= i < |refs| ==> TargetAvailable(availability, refs[i].target))
            then shown == SnapshotsIn(make, store, refs)
            else |shown| < |refs|
  {
    hide TargetAvailable, SnapshotIn;
    if refs != [] {
      var n := |refs| - 1;
      var front := refs[..n];
      AllAreShownIff(make, availability, store, front);
      if forall i :: 0 <= i < n ==> TargetAvailable(availability, refs[i].target) {
        assert forall i :: 0 <= i < n ==> TargetAvailable(availability, front[i].target);
        assert SnapshotsIn(make, store, refs) == SnapshotsIn(make, store, front) + [SnapshotIn(make, store, refs[n])];
      } else {
        var i :| 0 <= i < n && !TargetAvailable(availability, refs[i].target);
        assert !TargetAvailable(availability, front[i].target);
      }
    }
  }

  /** Listeners hear of a call exactly when it passed the checks made under the mutex, even
      if the adapter then refused it; they hear of it twice when it moved a collection. */
  lemma HeardOfWhenWritten(
    make: SnapshotMaker, availability: Availability, store: Store, service: Validation.Service, request: Request,
    settled: Settled, event: Event, bus: Bus, told: seq<Published>)
    requires request.operations != [] && (request.kind.Single? ==> |request.operations| == 1)
    requires settled == Services.SectionResult(make, availability, store, service, request).settled
    requires Services.Announced(request, settled, event, bus, told)
    ensures var max := service.limits.maxPropertiesPerCollection;
            var passed := FirstOperationError(service, request.context, request.operations).None?
                          && LimitError(availability, store, request.operations, max).None?;
            && (told != [] <==> passed)
            && (told != [] ==> Heard(bus, event, told[0]))
            && |told| <= 2
            && (|told| == 2 <==> passed && request.kind.Single?
                                 && CommitTo(make, availability, store, request).settled.status == Applied
                                 && request.operations[0].TransferCollection? && request.operations[0].removeSource)
            && (|told| == 2 ==> Heard(told[0].bus, told[0].event.(kind := CollectionMigrated), told[1]))
  {
    hide FirstOperationError, LimitError, Heard, ApplyTo, TransactOn;
  }

  /** A migration is announced of a collection that has left its source for its
      destination, and of every such move. */
  lemma MigrationMoved(
    make: SnapshotMaker, availability: Availability, store: Store, request: Request, committing: Committing)
    requires request.kind.Single? && |request.operations| == 1
    requires committing == CommitTo(make, availability, store, request)
    ensures Migrates(request, committing.settled) ==>
              var op := request.operations[0];
              && op.source in store && op.destination in committing.store
              && (op.source != op.destination ==> op.source !in committing.store)
    ensures request.operations[0].TransferCollection? && request.operations[0].removeSource
            && committing.settled.status == Applied ==>
              Migrates(request, committing.settled)
  {
    CommitAllOrNothing(make, availability, store, request);
    hide CommitTo, Deposit;
    var op := request.operations[0];
    if committing.settled.status == Applied && op.TransferCollection? {
      assert request.operations[..0] == [];
      assert Perform(store, op) == Done(committing.store);
      DepositKeeps(store, op);
    }
    hide *;
  }

  lemma DepositKeeps(store: Store, op: Operation)
    requires op.TransferCollection? && Perform(store, op).Done?
    ensures op.source in store && op.destination in Perform(store, op).store
    ensures op.removeSource && op.source != op.destination ==> op.source !in Perform(store, op).store
  {
  }
}
