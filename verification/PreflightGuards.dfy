/** What the preflight makes of revision expectations: it reads none of them, but
    rejects an operation whose own expectations clash. */
module PreflightGuards {
  import opened Types
  import opened Store
  import opened StoreLaws
  import opened Simulator
  import opened Validation
  import opened Commit
  import opened Protocol
  import opened Services
  import opened UnreadGuards
  import History
  import Revision

  /** The operation without its revision expectations. */
  function Unguarded(op: Operation): Operation {
    match op
    case SetProperty(ref, key, value, _) => SetProperty(ref, key, value, None)
    case SetMany(ref, values, _) => SetMany(ref, values, None)
    case RemoveProperty(ref, key, _, requireExisting) => RemoveProperty(ref, key, None, requireExisting)
    case RemoveMany(ref, keys, _, requireAllExisting) => RemoveMany(ref, keys, None, requireAllExisting)
    case ClearCollection(ref, _, removeCollection) => ClearCollection(ref, None, removeCollection)
    case RenameCollection(target, from, to, _, policy, _) => RenameCollection(target, from, to, None, policy, None)
    case TransferProperty(source, sourceKey, destination, destinationKey, _, _, removeSource, overwrite) =>
      TransferProperty(source, sourceKey, destination, destinationKey, None, None, removeSource, overwrite)
    case TransferCollection(source, destination, _, _, policy, removeSource) =>
      TransferCollection(source, destination, None, None, policy, removeSource)
    case ImportCollection(destination, properties, _, policy) => ImportCollection(destination, properties, None, policy)
  }

  function AllUnguarded(ops: seq<Operation>): (r: seq<Operation>)
    ensures |r| == |ops|
  {
    seq(|ops|, i requires 0 <= i < |ops| => Unguarded(ops[i]))
  }

  function WithoutGuards(request: Request): Request {
    request.(operations := AllUnguarded(request.operations))
  }

  /** No expectation is left. */
  lemma NothingExpected(op: Operation, ref: CollectionRef, revision: Word64)
    ensures !GivesGuard(Unguarded(op), ref, revision)
  {
  }

  lemma SameCollections(op: Operation)
    ensures OperationCollections(Unguarded(op)) == OperationCollections(op)
  {
  }

  lemma SameStep(sim: Sim, op: Operation)
    ensures SimStep(sim, Unguarded(op)) == SimStep(sim, op)
  {
    hide SimDeposit, KeySet;
  }

  lemma SameBody(service: Service, op: Operation)
    ensures ValidateBody(service, Unguarded(op)) == ValidateBody(service, op)
         || (ConflictingExpectations(op) && ValidateBody(service, op) == Some(InvalidValue))
  {
    hide ValidateEntries, ValidKey, ValidKeys, ValidValue;
  }

  /** Validation reads expectations only to compare them with each other. */
  lemma SameValidation(service: Service, context: AccessContext, op: Operation)
    ensures !ConflictingExpectations(op) ==>
              ValidateOperation(service, context, Unguarded(op)) == ValidateOperation(service, context, op)
    ensures ConflictingExpectations(op) && ValidateOperation(service, context, Unguarded(op)).None? ==>
              ValidateOperation(service, context, op) == Some(InvalidValue)
    ensures ConflictingExpectations(op) ==> ValidateOperation(service, context, op).Some?
  {
    SameCollections(op);
    SameBody(service, op);
    AcceptedIff(service, context, op);
    hide ValidateRef, OperationCollections, ConflictingExpectations, Names, Capable, ValidKeys, ValidValue, KeysOf,
         Payload, BulkSize, OntoItself, ValidateBody, Unguarded;
  }

  /** The first error of a list whose operations have no clash. */
  lemma {:induction false} SameFirstError(service: Service, context: AccessContext, ops: seq<Operation>)
    ensures NoClashes(ops) ==>
              FirstOperationError(service, context, AllUnguarded(ops)) == FirstOperationError(service, context, ops)
    ensures !NoClashes(ops) && FirstOperationError(service, context, AllUnguarded(ops)).None? ==>
              FirstOperationError(service, context, ops) == Some(InvalidValue)
    ensures !NoClashes(ops) ==> FirstOperationError(service, context, ops).Some?
  {
    hide ValidateOperation, ConflictingExpectations, Unguarded;
    if ops != [] {
      SameValidation(service, context, ops[0]);
      SameFirstError(service, context, ops[1..]);
      assert AllUnguarded(ops)[1..] == AllUnguarded(ops[1..]);
      assert ops == [ops[0]] + ops[1..];
      assert NoClashes(ops) <==> !ConflictingExpectations(ops[0]) && NoClashes(ops[1..]);
    }
  }

  lemma {:induction false} SameSimulation(sim: Sim, ops: seq<Operation>)
    ensures SimAfter(sim, AllUnguarded(ops)) == SimAfter(sim, ops)
  {
    hide SimStep, Unguarded;
    if ops != [] {
      var n := |ops| - 1;
      SameSimulation(sim, ops[..n]);
      assert AllUnguarded(ops)[..n] == AllUnguarded(ops[..n]);
      forall front: Sim ensures SimStep(front, Unguarded(ops[n])) == SimStep(front, ops[n]) {
        SameStep(front, ops[n]);
      }
    }
  }

  lemma {:induction false} SameScan(sim: Sim, ops: seq<Operation>, max: nat)
    ensures Scan(sim, AllUnguarded(ops), max) == Scan(sim, ops, max)
  {
    hide SimAfter, Exceeds, Unguarded;
    if ops != [] {
      var n := |ops| - 1;
      SameScan(sim, ops[..n], max);
      assert AllUnguarded(ops)[..n] == AllUnguarded(ops[..n]);
      SameSimulation(sim, ops);
    }
  }

  lemma SameNames(ops: seq<Operation>)
    ensures CollectionsOf(AllUnguarded(ops)) == CollectionsOf(ops)
  {
    hide Unguarded, OperationCollections;
    forall i | 0 <= i < |ops| ensures OperationCollections(AllUnguarded(ops)[i]) == OperationCollections(ops[i]) {
      SameCollections(ops[i]);
    }
  }

  lemma SameLimit(availability: Availability, store: Store, ops: seq<Operation>, max: nat)
    ensures LimitError(availability, store, AllUnguarded(ops), max) == LimitError(availability, store, ops, max)
  {
    hide Scan, Initial, CollectionsOf, TargetAvailable, AllUnguarded;
    SameNames(ops);
    SameScan(Initial(store, CollectionsOf(ops)), ops, max);
  }

  /** The preflight of a request without clashing expectations is that of the request
      without expectations, in whatever store: no revision is compared. */
  lemma PreflightReadsNoRevision(service: Service, availability: Availability, store: Store, request: Request)
    requires NoClashes(request.operations)
    ensures PreflightError(service, availability, store, request)
         == PreflightError(service, availability, store, WithoutGuards(request))
  {
    hide FirstOperationError, LimitError, AllUnguarded, NoClashes;
    SameFirstError(service, request.context, request.operations);
    SameLimit(availability, store, request.operations, service.limits.maxPropertiesPerCollection);
    UnguardedSize(request.operations);
  }

  lemma UnguardedSize(ops: seq<Operation>)
    ensures |AllUnguarded(ops)| == |ops|
  {
  }

  /** A request with a clash is always rejected. */
  lemma ClashIsRejected(service: Service, availability: Availability, store: Store, request: Request)
    requires !NoClashes(request.operations)
    ensures PreflightError(service, availability, store, request).Some?
  {
    hide FirstOperationError, LimitError, AllUnguarded, NoClashes;
    SameFirstError(service, request.context, request.operations);
  }

  /** So a request that would pass without its expectations is rejected for them if
      and only if the two expectations of one of its operations clash, whatever the
      revisions in the store are. */
  lemma RejectedForExpectationsIff(service: Service, availability: Availability, store: Store, request: Request)
    requires PreflightError(service, availability, store, WithoutGuards(request)).None?
    ensures PreflightError(service, availability, store, request)
         == if NoClashes(request.operations) then None else Some(InvalidValue)
  {
    hide FirstOperationError, LimitError, AllUnguarded, NoClashes;
    SameFirstError(service, request.context, request.operations);
    SameLimit(availability, store, request.operations, service.limits.maxPropertiesPerCollection);
    UnguardedSize(request.operations);
  }

  // Stale expectations are found under the mutex only

  /** With available targets, the capture loop stops for a revision or not at all. */
  lemma {:induction false} StopsForRevision(
    make: SnapshotMaker, availability: Availability, store: Store, op: Operation, refs: seq<CollectionRef>, force: bool)
    requires forall ref :: ref in refs ==> TargetAvailable(availability, ref.target)
    ensures CheckGuards(make, availability, store, op, refs, force).refusal in {None, Some(Conflict)}
  {
    hide TargetAvailable, GuardHolds, SnapshotIn, SnapshotsIn;
    if refs != [] {
      var n := |refs| - 1;
      assert refs[n] in refs;
      StopsForRevision(make, availability, store, op, refs[..n], force);
    }
  }

  /** The adapter refuses an operation whose compared expectation is stale. */
  lemma StaleIsConflict(
    make: SnapshotMaker, availability: Availability, store: Store, op: Operation, ref: CollectionRef)
    requires !ConflictingExpectations(op) && Names(op, ref) && !GuardHolds(make, store, op, ref)
    requires forall r :: r in OperationCollections(op) ==> TargetAvailable(availability, r.target)
    ensures ApplyTo(make, availability, store, op, false).result.status == Conflict
    ensures ApplyTo(make, availability, store, op, false).store == store
  {
    hide ConflictingExpectations, OperationCollections, GuardHolds, TargetAvailable, CheckGuards, Perform, Finish,
         SnapshotsIn;
    StopsForRevision(make, availability, store, op, Distinct(OperationCollections(op)), false);
  }

  /** A single request that passed the preflight with a stale expectation reaches the
      adapter, which answers with a conflict; the check of the expectation is the
      adapter's alone. */
  lemma StaleIsRefusedAtCommit(
    make: SnapshotMaker, availability: Availability, store: Store, service: Service, request: Request,
    op: Operation, ref: CollectionRef)
    requires request.kind.Single? && request.operations == [op] && !request.force
    requires PreflightError(service, availability, store, request).None?
    requires Names(op, ref) && !GuardHolds(make, store, op, ref)
    ensures var section := SectionResult(make, availability, store, service, request);
            && section.settled.attempted && section.settled.status == Conflict && section.store == store
  {
    assert ValidateOperation(service, request.context, request.operations[0]).None?;
    ValidatedIsNoSelfMove(service, request.context, op);
    NamedAreAvailable(availability, request.operations, op);
    hide GuardHolds, ApplyTo, ValidateOperation, Names, Scan, TargetAvailable, ConflictingExpectations;
    StaleIsConflict(make, availability, store, op, ref);
  }

  /** No unforced request commits on a stale compared expectation, in whatever state its
      own earlier operations put the store. */
  lemma StaleNeverCommits(
    make: SnapshotMaker, availability: Availability, store: Store, service: Service, request: Request,
    i: nat, ref: CollectionRef)
    requires Submittable(request) && !request.force && i < |request.operations|
    requires var before := PerformAll(store, request.operations[..i]);
             && before.Done? && Names(request.operations[i], ref)
             && !GuardHolds(make, before.store, request.operations[i], ref)
    ensures var section := SectionResult(make, availability, store, service, request);
            section.settled.status != Applied && section.store == store
  {
    hide ApplyTo, TransactOn, Perform, PerformAll, Scan, Initial, CollectionsOf, TargetAvailable, FirstOperationError,
         GuardHolds, Names, CommitTo;
    var c := CommitTo(make, availability, store, request);
    CommitAllOrNothing(make, availability, store, request);
    if c.settled.status == Applied {
      var op, before := request.operations[i], PerformAll(store, request.operations[..i]).store;
      History.CommittedResult(Env(make, service.limits), availability, store, request, i);
      AppliedIff(make, availability, before, op, false);
      assert false;
    }
  }

  lemma NamedAreAvailable(availability: Availability, ops: seq<Operation>, op: Operation)
    requires ops == [op]
    requires !exists ref :: ref in CollectionsOf(ops) && !TargetAvailable(availability, ref.target)
    ensures forall r :: r in OperationCollections(op) ==> TargetAvailable(availability, r.target)
  {
    hide TargetAvailable, OperationCollections;
    var refs := OperationCollections(op);
    forall r | r in refs ensures TargetAvailable(availability, r.target) {
      var j :| 0 <= j < |refs| && refs[j] == r;
      assert OperationCollections(ops[0])[j] == r;
      assert r in CollectionsOf(ops);
    }
  }

  /** Clearing is never over the limit. */
  lemma ClearFits(availability: Availability, store: Store, op: Operation, max: nat)
    requires op.ClearCollection? && !op.removeCollection && TargetAvailable(availability, op.ref.target)
    ensures LimitError(availability, store, [op], max).None?
  {
    var ops := [op];
    hide TargetAvailable, Scan;
    assert OperationCollections(ops[0])[0] == op.ref;
    assert CollectionsOf(ops) == {op.ref};
    LimitErrorExact(availability, store, ops, max);
    forall k | 0 <= k < |ops| ensures !OverLimitAt(store, CollectionsOf(ops), ops, k, max) {
      assert ops[..1] == ops && ops[..0] == [];
      assert PerformAll(store, ops) == Perform(store, op);
    }
  }

  /** Clearing a collection on another revision than the expected one: it passes the
      preflight of every service that may clear the collection, and the adapter refuses
      it. */
  lemma StaleClear(
    make: SnapshotMaker, availability: Availability, store: Store, service: Service, context: AccessContext,
    ref: CollectionRef, stale: Word64)
    requires ValidateRef(service, context, ref).None? && service.capabilities.clear
    requires TargetAvailable(availability, ref.target) && SnapshotIn(make, store, ref).revision != stale
    ensures var request := Request([ClearCollection(ref, Some(stale), false)], context, false, Single);
            && PreflightError(service, availability, store, request).None?
            && SectionResult(make, availability, store, service, request).settled.status == Conflict
  {
    var op := ClearCollection(ref, Some(stale), false);
    var request := Request([op], context, false, Single);
    assert ValidateOperation(service, context, request.operations[0]).None?;
    ClearFits(availability, store, op, service.limits.maxPropertiesPerCollection);
    assert Names(op, ref) && !GuardHolds(make, store, op, ref);
    hide ValidateRef, ValidateOperation, TargetAvailable, LimitError, SectionResult, Names, GuardHolds, SnapshotIn;
    StaleIsRefusedAtCommit(make, availability, store, service, request, op, ref);
  }

  /** A real one, with the library's own revisions: one of two missing collections of a
      world is cleared with an expectation of revision 1, which is not its revision. */
  lemma StaleWitness()
    ensures exists name ::
              var ref := CollectionRef(WORLD, name);
              var request := Request([ClearCollection(ref, Some(1), false)], ADMIN, false, Single);
              && SnapshotIn(Revision.SnapshotOf, map[], ref).revision != 1
              && PreflightError(SERVICE, map[], map[], request).None?
              && SectionResult(Revision.SnapshotOf, map[], map[], SERVICE, request).settled.status == Conflict
  {
    hide Revision.RevisionOf, Revision.ByteCount, ValidateRef, PreflightError, SectionResult;
    var none: Properties := map[];
    Revision.NamesDifferingInOneByte(WORLD, "", 'a', 'b', "", false, none);
    assert "" + ['a'] + "" == "a" && "" + ['b'] + "" == "b";
    var name := if Revision.RevisionOf(CollectionRef(WORLD, "a"), false, none) != 1 then "a" else "b";
    var ref := CollectionRef(WORLD, name);
    WorldCollectionAccepted(name);
    assert SnapshotIn(Revision.SnapshotOf, map[], ref).revision == Revision.RevisionOf(ref, false, none);
    StaleClear(Revision.SnapshotOf, map[], map[], SERVICE, ADMIN, ref, 1);
  }
}
