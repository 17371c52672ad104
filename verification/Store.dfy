/** What the in-memory adapter's operations mean: the new store, or the status
    with which the operation is refused. */
module Store {
  import opened Types

  /** `makeSnapshot`.  The meaning of the operations does not depend on how the
      revision is computed, so the function is a parameter here; the library's
      own one is `Revision.SnapshotOf`. */
  type SnapshotMaker = (CollectionRef, Properties, bool) -> Snapshot

  type Store = map<CollectionRef, Properties>
  type Availability = map<Target, bool>

  /** Targets are available unless marked otherwise. */
  predicate TargetAvailable(availability: Availability, target: Target) {
    target !in availability || availability[target]
  }

  /** The properties of a collection; a missing one has none. */
  function Lookup(store: Store, ref: CollectionRef): Properties {
    if ref in store then store[ref] else map[]
  }

  function SnapshotIn(make: SnapshotMaker, store: Store, ref: CollectionRef): Snapshot {
    make(ref, Lookup(store, ref), ref in store)
  }

  /** The statuses with which an operation itself is refused. */
  type Refusal = s: Status | s == NotFound || s == Conflict witness NotFound

  datatype Outcome = Done(store: Store) | Refused(status: Refusal)

  /** The entries under the given keys. */
  function Part(values: Properties, keys: seq<string>): Properties
    requires forall k :: k in keys ==> k in values
  {
    map k | k in keys :: values[k]
  }

  /** The collection named `destination` receives `incoming`, as `policy` says. */
  function Deposit(store: Store, destination: CollectionRef, incoming: Properties, policy: ImportPolicy): Outcome {
    if policy.FailIfDestinationExists? && destination in store then Refused(Conflict)
    else if policy.Merge? && destination in store then Done(store[destination := store[destination] + incoming])
    else Done(store[destination := incoming])
  }

  /** The effect of an operation once its guards have passed. */
  function Perform(store: Store, op: Operation): Outcome {
    match op
    case SetProperty(ref, key, value, _) => Done(store[ref := Lookup(store, ref)[key := value]])
    case SetMany(ref, values, _) => Done(store[ref := Lookup(store, ref) + values])
    case RemoveProperty(ref, key, _, requireExisting) =>
      if key in Lookup(store, ref) then Done(store[ref := store[ref] - {key}])
      else if requireExisting then Refused(NotFound)
      else Done(store)
    case RemoveMany(ref, keys, _, requireAllExisting) =>
      if requireAllExisting && !(KeySet(keys) <= Lookup(store, ref).Keys) then Refused(NotFound)
      else if ref in store then Done(store[ref := store[ref] - KeySet(keys)])
      else Done(store)
    case ClearCollection(ref, _, removeCollection) =>
      Done(if removeCollection then store - {ref} else store[ref := map[]])
    case RenameCollection(target, from, to, _, policy, _) =>
      var source := CollectionRef(target, from);
      if source !in store then Refused(NotFound)
      else
        var deposited := Deposit(store, CollectionRef(target, to), store[source], policy);
        if deposited.Done? then Done(deposited.store - {source}) else deposited
    case TransferProperty(source, sourceKey, destination, destinationKey, _, _, removeSource, overwrite) =>
      if sourceKey !in Lookup(store, source) then Refused(NotFound)
      else if !overwrite && destinationKey in Lookup(store, destination) then Refused(Conflict)
      else
        var value := store[source][sourceKey];
        var written := store[destination := Lookup(store, destination)[destinationKey := value]];
        Done(if removeSource then written[source := written[source] - {sourceKey}] else written)
    case TransferCollection(source, destination, _, _, policy, removeSource) =>
      if source !in store then Refused(NotFound)
      else
        var deposited := Deposit(store, destination, store[source], policy);
        if deposited.Done? && removeSource && source != destination then Done(deposited.store - {source})
        else deposited
    case ImportCollection(destination, properties, _, policy) => Deposit(store, destination, properties, policy)
  }

  /** The revision an operation expects of a collection it names. */
  function ExpectedRevision(op: Operation, ref: CollectionRef): Guard {
    match op
    case RenameCollection(target, from, to, expectedSource, _, expectedDestination) =>
      if CollectionRef(target, from) == ref then expectedSource
      else if CollectionRef(target, to) == ref then expectedDestination
      else None
    case TransferProperty(source, _, destination, _, expectedSource, expectedDestination, _, _) =>
      if source == ref && destination == ref then
        if expectedSource.Some? then expectedSource else expectedDestination
      else if source == ref then expectedSource
      else if destination == ref then expectedDestination
      else None
    case TransferCollection(source, destination, expectedSource, expectedDestination, _, _) =>
      if source == ref then expectedSource
      else if destination == ref then expectedDestination
      else None
    case ImportCollection(destination, _, expectedDestination, _) =>
      if destination == ref then expectedDestination else None
    case _ => if op.ref == ref then op.expected else None
  }

  /** A property transfer within one collection whose two expectations differ. */
  predicate ConflictingExpectations(op: Operation) {
    op.TransferProperty? && op.source == op.destination
    && op.expectedSource.Some? && op.expectedDestination.Some? && op.expectedSource != op.expectedDestination
  }

  /** First occurrences only. */
  function Distinct(refs: seq<CollectionRef>): (d: seq<CollectionRef>)
    ensures forall r :: r in d <==> r in refs
    ensures forall i, j :: 0 <= i < j < |d| ==> d[i] != d[j]
  {
    if refs == [] then []
    else
      var n := |refs| - 1;
      var front := Distinct(refs[..n]);
      assert refs == refs[..n] + [refs[n]];
      if refs[n] in front then front else front + [refs[n]]
  }

  function SnapshotsIn(make: SnapshotMaker, store: Store, refs: seq<CollectionRef>): (s: seq<Snapshot>)
    ensures |s| == |refs|
    ensures forall i :: 0 <= i < |refs| ==> s[i] == SnapshotIn(make, store, refs[i])
  {
    seq(|refs|, i requires 0 <= i < |refs| => SnapshotIn(make, store, refs[i]))
  }

  predicate GuardHolds(make: SnapshotMaker, store: Store, op: Operation, ref: CollectionRef) {
    var expected := ExpectedRevision(op, ref);
    expected.Some? ==> expected.value == SnapshotIn(make, store, ref).revision
  }

  /** How far the capture loop gets: the snapshots taken, and the status that
      stopped it. */
  datatype Captures = Captures(before: seq<Snapshot>, refusal: Option<Status>)

  function CheckGuards(
    make: SnapshotMaker, availability: Availability, store: Store, op: Operation, refs: seq<CollectionRef>, force: bool)
    : (c: Captures)
    ensures c.refusal.None? <==>
            forall ref :: ref in refs ==>
              TargetAvailable(availability, ref.target) && (force || GuardHolds(make, store, op, ref))
    ensures c.refusal.None? ==> c.before == SnapshotsIn(make, store, refs)
    ensures c.refusal.Some? ==> c.refusal.value in {Status.TargetUnavailable, Status.Conflict}
  {
    if refs == [] then Captures([], None)
    else
      var n := |refs| - 1;
      assert refs == refs[..n] + [refs[n]];
      var front := CheckGuards(make, availability, store, op, refs[..n], force);
      if front.refusal.Some? then front
      else if !TargetAvailable(availability, refs[n].target) then Captures(front.before, Some(TargetUnavailable))
      else
        var before := front.before + [SnapshotIn(make, store, refs[n])];
        if !force && !GuardHolds(make, store, op, refs[n]) then Captures(before, Some(Conflict))
        else Captures(before, None)
  }

  /** The store after `applyUnlocked`, and its result. */
  datatype Applying = Applying(store: Store, result: OperationResult)

  function Finish(
    make: SnapshotMaker, store: Store, refs: seq<CollectionRef>, before: seq<Snapshot>, outcome: Outcome): Applying
    requires refs != []
  {
    match outcome
    case Refused(status) => Applying(store, Failed(status, before))
    case Done(after) =>
      Applying(after, OperationResult(Applied, before, SnapshotsIn(make, after, refs),
                                      SnapshotIn(make, after, refs[|refs| - 1]).revision))
  }

  function ApplyTo(
    make: SnapshotMaker, availability: Availability, store: Store, op: Operation, force: bool): Applying {
    if ConflictingExpectations(op) then Applying(store, Failed(InvalidValue, []))
    else
      var refs := Distinct(OperationCollections(op));
      var captures := CheckGuards(make, availability, store, op, refs, force);
      if captures.refusal.Some? then Applying(store, Failed(captures.refusal.value, captures.before))
      else
        assert OperationCollections(op)[0] in refs;
        Finish(make, store, refs, captures.before, Perform(store, op))
  }

  datatype Transaction =
    Transaction(operations: seq<Operation>, force: bool, rollbackOnFailure: bool, requireAtomic: bool)

  datatype TransactionResult = TransactionResult(status: Status, results: seq<OperationResult>, rolledBack: bool)

  datatype Transacting = Transacting(store: Store, result: TransactionResult)

  /** The candidate store and the results after the operations, up to and
      including the first failure. */
  datatype Progress = Progress(candidate: Store, results: seq<OperationResult>, failed: bool)

  function RunAll(
    make: SnapshotMaker, availability: Availability, store: Store, ops: seq<Operation>, force: bool): Progress {
    if ops == [] then Progress(store, [], false)
    else
      var n := |ops| - 1;
      var front := RunAll(make, availability, store, ops[..n], force);
      if front.failed then front
      else
        var last := ApplyTo(make, availability, front.candidate, ops[n], force);
        Progress(last.store, front.results + [last.result], !last.result.Ok())
  }

  function TransactOn(make: SnapshotMaker, availability: Availability, store: Store, tx: Transaction): Transacting {
    var run := RunAll(make, availability, store, tx.operations, tx.force);
    if run.failed then Transacting(store, TransactionResult(TransactionFailed, run.results, tx.rollbackOnFailure))
    else Transacting(run.candidate, TransactionResult(Applied, run.results, false))
  }
}
