/** The commit of a request: the checks made under the mutex and the adapter call. */
module Commit {
  import opened Types
  import opened Store
  import opened StoreLaws
  import opened Simulator
  import opened Validation

  /** How a request reaches the adapter: `apply`, or `transact`. */
  datatype Kind = Single | Atomic(rollbackOnFailure: bool, requireAtomic: bool)

  datatype Request = Request(operations: seq<Operation>, context: AccessContext, force: bool, kind: Kind)

  /** What the service returns and audits.  `attempted` says whether the adapter
      was asked to write. */
  datatype Settled = Settled(status: Status, results: seq<OperationResult>, attempted: bool, rolledBack: bool)

  function Rejected(request: Request, status: Status): Settled {
    Settled(status, seq(|request.operations|, _ => Failed(status, [])), false, false)
  }

  function FirstOperationError(service: Service, context: AccessContext, ops: seq<Operation>): (error: Option<Status>)
    ensures error.None? <==> forall i :: 0 <= i < |ops| ==> ValidateOperation(service, context, ops[i]).None?
    ensures error != Some(Applied) && error != Some(Cancelled)
  {
    if ops == [] then None
    else
      var first := ValidateOperation(service, context, ops[0]);
      if first.Some? then first else FirstOperationError(service, context, ops[1..])
  }

  /** The checks a request passes before any event is published, except for the
      property-count check, which reads the store. */
  function RequestError(service: Service, request: Request): Option<Status> {
    if request.kind.Atomic? && |request.operations| > service.limits.maxTransactionOperations then Some(InvalidValue)
    else if request.kind.Atomic? && request.kind.requireAtomic && !service.capabilities.atomicTransactions
    then Some(Unsupported)
    else if request.force && !request.context.rawAdmin then Some(PermissionDenied)
    else FirstOperationError(service, request.context, request.operations)
  }

  /** A request that got past its checks: one operation for `apply`, at least one
      for `transact`. */
  predicate Admitted(service: Service, request: Request) {
    request.operations != [] && (request.kind.Single? ==> |request.operations| == 1)
    && RequestError(service, request).None?
  }

  /** Exactly when a request gets past its checks; only an administrator may force. */
  lemma AdmittedIff(service: Service, request: Request)
    ensures Admitted(service, request) <==>
              && (if request.kind.Single? then |request.operations| == 1
                  else 0 < |request.operations| <= service.limits.maxTransactionOperations)
              && (request.kind.Atomic? && request.kind.requireAtomic ==> service.capabilities.atomicTransactions)
              && (request.force ==> request.context.rawAdmin)
              && forall i :: 0 <= i < |request.operations| ==>
                   ValidateOperation(service, request.context, request.operations[i]).None?
  {
    hide ValidateOperation;
  }

  /** Forcing without being an administrator is denied before anything else is looked
      at, except for the size and the kind of a transaction. */
  lemma ForceIsDenied(service: Service, request: Request)
    requires request.force && !request.context.rawAdmin
    ensures request.kind.Single? ==> RequestError(service, request) == Some(PermissionDenied)
    ensures request.kind.Atomic? ==>
              RequestError(service, request)
              == Some(if |request.operations| > service.limits.maxTransactionOperations then InvalidValue
                      else if request.kind.requireAtomic && !service.capabilities.atomicTransactions then Unsupported
                      else PermissionDenied)
  {
  }

  /** The error of a list is that of its first operation that has one. */
  lemma {:induction false} FirstErrorIsFirst(service: Service, context: AccessContext, ops: seq<Operation>, i: nat)
    requires i < |ops| && ValidateOperation(service, context, ops[i]).Some?
    requires forall j :: 0 <= j < i ==> ValidateOperation(service, context, ops[j]).None?
    ensures FirstOperationError(service, context, ops) == ValidateOperation(service, context, ops[i])
    decreases i
  {
    hide ValidateOperation;
    if i > 0 {
      FirstErrorIsFirst(service, context, ops[1..], i - 1);
    }
  }

  /** `validatePropertyLimits`. */
  function LimitError(availability: Availability, store: Store, ops: seq<Operation>, max: nat): Option<Status> {
    if exists ref :: ref in CollectionsOf(ops) && !TargetAvailable(availability, ref.target)
    then Some(TargetUnavailable)
    else if Scan(Initial(store, CollectionsOf(ops)), ops, max).OverLimit? then Some(InvalidValue)
    else None
  }

  lemma {:induction false} NamedInCollections(ops: seq<Operation>)
    ensures NamedIn(ops, CollectionsOf(ops))
    ensures forall ref :: ref in CollectionsOf(ops) ==> exists i :: 0 <= i < |ops| && Names(ops[i], ref)
  {
    forall i, ref | 0 <= i < |ops| && Names(ops[i], ref) ensures ref in CollectionsOf(ops) {
      var j :| 0 <= j < |OperationCollections(ops[i])| && OperationCollections(ops[i])[j] == ref;
    }
  }

  /** The preflight reports the limit exactly when every operation up to some
      point can be applied and there, for the first time, a named collection is
      over the limit. */
  lemma {:induction false} LimitErrorExact(availability: Availability, store: Store, ops: seq<Operation>, max: nat)
    requires NoSelfMoves(ops)
    requires forall ref :: ref in CollectionsOf(ops) ==> TargetAvailable(availability, ref.target)
    ensures LimitError(availability, store, ops, max) == Some(InvalidValue) <==>
            exists k :: 0 <= k < |ops| && OverLimitAt(store, CollectionsOf(ops), ops, k, max)
    ensures LimitError(availability, store, ops, max) in {None, Some(InvalidValue)}
  {
    hide Scan, PerformAll, Initial, TooBig, CollectionsOf, FitsUpTo, Applies, NamedIn, NoSelfMoves;
    var refs := CollectionsOf(ops);
    NamedInCollections(ops);
    ScanOfFold(store, refs, ops, max);
    forall k | 0 <= k < |ops| && OverLimitAt(store, refs, ops, k, max)
      ensures Scan(Initial(store, refs), ops, max).OverLimit?
    {
      OverLimitIsReported(store, refs, ops, k, max);
    }
    var verdict := Scan(Initial(store, refs), ops, max);
    assert verdict.OverLimit? ==> OverLimitAt(store, refs, ops, verdict.at, max);
    hide OverLimitAt, TargetAvailable;
  }

  /** The first `k` operations fit; the next one can be applied and takes a named
      collection over the limit. */
  predicate OverLimitAt(store: Store, refs: set<CollectionRef>, ops: seq<Operation>, k: nat, max: nat)
    requires k < |ops|
  {
    FitsUpTo(store, refs, ops, k, max) && Applies(store, ops, k + 1)
    && TooBig(PerformAll(store, ops[..k + 1]).store, refs, max)
  }

  lemma {:induction false} FitsAt(store: Store, refs: set<CollectionRef>, ops: seq<Operation>, k: nat, max: nat, j: nat)
    requires 1 <= j <= |ops| && k <= |ops|
    ensures j <= k && FitsUpTo(store, refs, ops, k, max) ==>
              Applies(store, ops, j) && !TooBig(PerformAll(store, ops[..j]).store, refs, max)
  {
    hide PerformAll, TooBig, Applies;
  }

  /** The scan reports whatever first goes over the limit. */
  lemma {:induction false} OverLimitIsReported(
    store: Store, refs: set<CollectionRef>, ops: seq<Operation>, k: nat, max: nat)
    requires NamedIn(ops, refs) && NoSelfMoves(ops)
    requires k < |ops| && OverLimitAt(store, refs, ops, k, max)
    ensures Scan(Initial(store, refs), ops, max).OverLimit?
  {
    hide Scan, PerformAll, Initial, TooBig, Applies, NamedIn, NoSelfMoves;
    ScanOfFold(store, refs, ops, max);
    FitsAt(store, refs, ops, |ops|, max, k + 1);
    forall at: nat | at < |ops| && FitsUpTo(store, refs, ops, at, max) ensures !Applies(store, ops, at + 1) ==> at > k {
      FitsAt(store, refs, ops, k, max, at + 1);
    }
    forall at: nat | at < |ops| && FitsUpTo(store, refs, ops, at, max) ensures at <= k {
      FitsAt(store, refs, ops, at, max, k + 1);
    }
    hide FitsUpTo;
  }

  /** Once an operation is refused, no longer list can be applied. */
  lemma {:induction false} RefusalSticks(store: Store, ops: seq<Operation>, j: nat, k: nat)
    requires k <= |ops| && j <= |ops|
    ensures j <= k && !Applies(store, ops, j) ==> !Applies(store, ops, k)
  {
    hide Perform;
    if j < k {
      RefusalSticks(store, ops, j, k - 1);
      assert ops[..k][..k - 1] == ops[..k - 1];
    }
  }

  predicate WithinLimit(store: Store, max: nat) {
    forall ref :: ref in store ==> |store[ref]| <= max
  }

  /** A list of operations changes no collection it does not name. */
  lemma {:induction false} FoldFrame(store: Store, ops: seq<Operation>, ref: CollectionRef)
    requires PerformAll(store, ops).Done?
    requires forall i :: 0 <= i < |ops| ==> !Names(ops[i], ref)
    ensures SameAt(store, PerformAll(store, ops).store, ref)
  {
    hide Perform, Names;
    if ops != [] {
      var n := |ops| - 1;
      FoldFrame(store, ops[..n], ref);
      Frame(PerformAll(store, ops[..n]).store, ops[n], ref);
    }
  }

  /** If the scan did not report the limit, committing the whole list keeps every
      collection within it. */
  lemma {:induction false} CommitWithinLimit(store: Store, ops: seq<Operation>, max: nat)
    requires NoSelfMoves(ops) && WithinLimit(store, max)
    requires !Scan(Initial(store, CollectionsOf(ops)), ops, max).OverLimit?
    requires PerformAll(store, ops).Done?
    ensures WithinLimit(PerformAll(store, ops).store, max)
  {
    var refs := CollectionsOf(ops);
    NamedInCollections(ops);
    if ops != [] { ClearedFits(store, refs, ops, max); }
    var after := PerformAll(store, ops).store;
    hide Scan, Initial, CollectionsOf, Names, Perform;
    forall ref | ref in after ensures |after[ref]| <= max {
      if ref in refs && ops != [] {
        assert Lookup(after, ref) == after[ref];
      } else {
        FoldFrame(store, ops, ref);
      }
    }
  }

  lemma {:induction false} ClearedFits(store: Store, refs: set<CollectionRef>, ops: seq<Operation>, max: nat)
    requires NamedIn(ops, refs) && NoSelfMoves(ops) && ops != []
    requires !Scan(Initial(store, refs), ops, max).OverLimit? && PerformAll(store, ops).Done?
    ensures !TooBig(PerformAll(store, ops).store, refs, max)
  {
    ScanOfFold(store, refs, ops, max);
    assert ops[..|ops|] == ops;
    assert Applies(store, ops, |ops|);
    FitsAt(store, refs, ops, |ops|, max, |ops|);
    forall j: nat | j <= |ops| ensures Applies(store, ops, j) {
      RefusalSticks(store, ops, j, |ops|);
    }
    hide Scan, PerformAll, Initial, TooBig, FitsUpTo, Applies, NamedIn, NoSelfMoves, SelfMove;
  }

  lemma {:induction false} FoldKeepsGood(service: Service, context: AccessContext, ops: seq<Operation>, store: Store)
    requires forall i :: 0 <= i < |ops| ==> ValidateOperation(service, context, ops[i]).None?
    requires GoodStore(service.limits, store) && PerformAll(store, ops).Done?
    ensures GoodStore(service.limits, PerformAll(store, ops).store)
  {
    hide Perform, ValidateOperation, GoodStore;
    if ops != [] {
      var n := |ops| - 1;
      FoldKeepsGood(service, context, ops[..n], store);
      PerformKeepsGood(service, context, ops[n], PerformAll(store, ops[..n]).store);
    }
  }

  lemma {:induction false} AdmittedOperations(service: Service, request: Request)
    requires Admitted(service, request)
    ensures NoSelfMoves(request.operations)
    ensures forall i :: 0 <= i < |request.operations| ==>
              ValidateOperation(service, request.context, request.operations[i]).None?
  {
    hide ValidateOperation, SelfMove;
    var ops := request.operations;
    forall i | 0 <= i < |ops| ensures !SelfMove(ops[i]) {
      ValidatedIsNoSelfMove(service, request.context, ops[i]);
    }
  }

  /** The adapter call. */
  datatype Committing = Committing(store: Store, settled: Settled)

  function CommitTo(make: SnapshotMaker, availability: Availability, store: Store, request: Request): Committing
    requires request.kind.Single? ==> |request.operations| == 1
  {
    match request.kind
    case Single =>
      var a := ApplyTo(make, availability, store, request.operations[0], request.force);
      Committing(a.store, Settled(a.result.status, [a.result], true, false))
    case Atomic(rollbackOnFailure, requireAtomic) =>
      var t := TransactOn(make, availability, store,
                          Transaction(request.operations, request.force, rollbackOnFailure, requireAtomic));
      Committing(t.store, Settled(t.result.status, t.result.results, true, t.result.rolledBack))
  }

  /** A commit installs the fold of all its operations, or nothing. */
  lemma {:induction false} CommitAllOrNothing(
    make: SnapshotMaker, availability: Availability, store: Store, request: Request)
    requires request.kind.Single? ==> |request.operations| == 1
    ensures var c := CommitTo(make, availability, store, request);
            var n := |request.operations|;
            if c.settled.status == Applied
            then PerformAll(store, request.operations) == Done(c.store)
                 && |c.settled.results| == n && forall i :: 0 <= i < n ==> c.settled.results[i].Ok()
            else c.store == store && 0 < |c.settled.results| <= n
                 && (request.kind.Single? ==> c.settled.status == c.settled.results[0].status)
                 && !c.settled.results[|c.settled.results| - 1].Ok()
                 && forall i :: 0 <= i < |c.settled.results| - 1 ==> c.settled.results[i].Ok()
  {
    hide Perform, ApplyTo, RunAll;
    var ops := request.operations;
    match request.kind
    case Single =>
      AppliedMeans(make, availability, store, ops[0], request.force,
                   ApplyTo(make, availability, store, ops[0], request.force),
                   Distinct(OperationCollections(ops[0])), Perform(store, ops[0]));
      assert ops == [ops[0]] && ops[..0] == [];
    case Atomic(rollbackOnFailure, requireAtomic) =>
      TransactAllOrNothing(make, availability, store,
                           Transaction(ops, request.force, rollbackOnFailure, requireAtomic));
  }
}
