/** Laws of the store: when an operation is applied, what it may touch, that
    transactions are all or nothing, and that bulk operations equal small ones. */
module StoreLaws {
  import opened Types
  import opened Store

  predicate Names(op: Operation, ref: CollectionRef) {
    ref in OperationCollections(op)
  }

  /** `before` and `after` agree about one collection. */
  predicate SameAt(before: Store, after: Store, ref: CollectionRef) {
    (ref in before <==> ref in after) && (ref in before ==> before[ref] == after[ref])
  }

  /** An operation is applied exactly when its targets are available, its guards
      hold or are overridden, and its own preconditions are met. */
  lemma AppliedIff(make: SnapshotMaker, availability: Availability, store: Store, op: Operation, force: bool)
    ensures ApplyTo(make, availability, store, op, force).result.Ok() <==>
            && !ConflictingExpectations(op)
            && (forall ref :: Names(op, ref) ==>
                  TargetAvailable(availability, ref.target) && (force || GuardHolds(make, store, op, ref)))
            && Perform(store, op).Done?
  {
    hide Perform, CheckGuards, Distinct, SnapshotsIn, OperationCollections, GuardHolds, TargetAvailable;
    var refs := Distinct(OperationCollections(op));
    assert forall ref :: Names(op, ref) <==> ref in refs;
  }

  lemma NamesSomething(op: Operation)
    ensures Distinct(OperationCollections(op)) != []
  {
    assert OperationCollections(op)[0] in Distinct(OperationCollections(op));
  }

  /** What an applied operation leaves behind, with the snapshots it reports. */
  lemma AppliedMeans(
    make: SnapshotMaker, availability: Availability, store: Store, op: Operation, force: bool,
    a: Applying, refs: seq<CollectionRef>, outcome: Outcome)
    requires a == ApplyTo(make, availability, store, op, force)
    requires refs == Distinct(OperationCollections(op)) && outcome == Perform(store, op)
    ensures a.result.Ok() ==> outcome == Done(a.store)
    ensures a.result.Ok() ==> a.result.before == SnapshotsIn(make, store, refs)
    ensures a.result.Ok() ==> a.result.after == SnapshotsIn(make, a.store, refs)
    ensures a.result.Ok() ==>
              refs != [] && a.result.resultingRevision == SnapshotIn(make, a.store, refs[|refs| - 1]).revision
    ensures !a.result.Ok() ==> a.store == store
  {
    NamesSomething(op);
    hide Perform, CheckGuards, Distinct, SnapshotsIn, OperationCollections;
  }

  /** The capture loop gets past a collection. */
  predicate Passes(
    make: SnapshotMaker, availability: Availability, store: Store, op: Operation, ref: CollectionRef, force: bool)
  {
    TargetAvailable(availability, ref.target) && (force || GuardHolds(make, store, op, ref))
  }

  /** ... and stops at the first it does not get past, with the snapshots of those that
      were available. */
  lemma {:induction false} CapturesUpTo(
    make: SnapshotMaker, availability: Availability, store: Store, op: Operation, refs: seq<CollectionRef>,
    force: bool, k: nat)
    requires k < |refs| && !Passes(make, availability, store, op, refs[k], force)
    requires forall j :: 0 <= j < k ==> Passes(make, availability, store, op, refs[j], force)
    ensures CheckGuards(make, availability, store, op, refs, force)
         == if TargetAvailable(availability, refs[k].target)
            then Captures(SnapshotsIn(make, store, refs[..k + 1]), Some(Conflict))
            else Captures(SnapshotsIn(make, store, refs[..k]), Some(TargetUnavailable))
    decreases |refs|
  {
    hide CheckGuards, Passes, SnapshotsIn, TargetAvailable;
    var n := |refs| - 1;
    CaptureOneMore(make, availability, store, op, refs, force);
    if k < n {
      CapturesUpTo(make, availability, store, op, refs[..n], force, k);
      assert refs[..n][..k] == refs[..k] && refs[..n][..k + 1] == refs[..k + 1];
    } else {
      CapturesAll(make, availability, store, op, refs[..n], force);
      SnapshotsStep(make, store, refs);
      assert refs[..n + 1] == refs;
    }
  }

  lemma CapturesAll(
    make: SnapshotMaker, availability: Availability, store: Store, op: Operation, refs: seq<CollectionRef>, force: bool)
    requires forall j :: 0 <= j < |refs| ==> Passes(make, availability, store, op, refs[j], force)
    ensures CheckGuards(make, availability, store, op, refs, force) == Captures(SnapshotsIn(make, store, refs), None)
  {
    hide GuardHolds, TargetAvailable, SnapshotsIn;
  }

  lemma SnapshotsStep(make: SnapshotMaker, store: Store, refs: seq<CollectionRef>)
    requires refs != []
    ensures SnapshotsIn(make, store, refs)
         == SnapshotsIn(make, store, refs[..|refs| - 1]) + [SnapshotIn(make, store, refs[|refs| - 1])]
  {
    hide SnapshotIn;
  }

  lemma CaptureOneMore(
    make: SnapshotMaker, availability: Availability, store: Store, op: Operation, refs: seq<CollectionRef>, force: bool)
    requires refs != []
    ensures var last := refs[|refs| - 1];
            var front := CheckGuards(make, availability, store, op, refs[..|refs| - 1], force);
            CheckGuards(make, availability, store, op, refs, force)
            == if front.refusal.Some? then front
               else if !TargetAvailable(availability, last.target) then Captures(front.before, Some(TargetUnavailable))
               else if Passes(make, availability, store, op, last, force)
               then Captures(front.before + [SnapshotIn(make, store, last)], None)
               else Captures(front.before + [SnapshotIn(make, store, last)], Some(Conflict))
  {
    hide GuardHolds, TargetAvailable, SnapshotIn, SnapshotsIn;
  }

  lemma RefusedFinish(
    make: SnapshotMaker, store: Store, refs: seq<CollectionRef>, before: seq<Snapshot>, outcome: Outcome)
    requires refs != [] && outcome.Refused?
    ensures Finish(make, store, refs, before, outcome).result == Failed(outcome.status, before)
  {
  }

  /** The first collection that is unavailable or has another revision than the expected
      one decides how an operation is refused, and its snapshots are reported up to
      there; no collection is looked at when its own expectations clash. */
  lemma RefusedAtGuard(
    make: SnapshotMaker, availability: Availability, store: Store, op: Operation, force: bool,
    refs: seq<CollectionRef>, k: nat)
    requires refs == Distinct(OperationCollections(op)) && k < |refs|
    requires !Passes(make, availability, store, op, refs[k], force)
    requires forall j :: 0 <= j < k ==> Passes(make, availability, store, op, refs[j], force)
    ensures ApplyTo(make, availability, store, op, force).result
         == if ConflictingExpectations(op) then Failed(InvalidValue, [])
            else if TargetAvailable(availability, refs[k].target)
            then Failed(Conflict, SnapshotsIn(make, store, refs[..k + 1]))
            else Failed(TargetUnavailable, SnapshotsIn(make, store, refs[..k]))
  {
    hide Perform, CheckGuards, Distinct, SnapshotsIn, OperationCollections, ConflictingExpectations, GuardHolds,
         TargetAvailable, Passes, Finish;
    CapturesUpTo(make, availability, store, op, refs, force, k);
  }

  /** Past the guards the operation's own precondition decides, and all snapshots are
      reported. */
  lemma RefusedByOperation(
    make: SnapshotMaker, availability: Availability, store: Store, op: Operation, force: bool, refs: seq<CollectionRef>)
    requires refs == Distinct(OperationCollections(op)) && Perform(store, op).Refused?
    requires !ConflictingExpectations(op)
    requires forall j :: 0 <= j < |refs| ==> Passes(make, availability, store, op, refs[j], force)
    ensures ApplyTo(make, availability, store, op, force).result
         == Failed(Perform(store, op).status, SnapshotsIn(make, store, refs))
  {
    NamesSomething(op);
    hide Perform, CheckGuards, Distinct, SnapshotsIn, OperationCollections, ConflictingExpectations, Passes, Finish;
    CapturesAll(make, availability, store, op, refs, force);
    RefusedFinish(make, store, refs, SnapshotsIn(make, store, refs), Perform(store, op));
  }

  /** An operation changes no collection it does not name. */
  lemma Frame(store: Store, op: Operation, ref: CollectionRef)
    requires Perform(store, op).Done? && !Names(op, ref)
    ensures SameAt(store, Perform(store, op).store, ref)
  {
    var refs := OperationCollections(op);
    assert forall i :: 0 <= i < |refs| ==> refs[i] != ref;
    assert refs[0] != ref && (|refs| > 1 ==> refs[1] != ref);
  }

  /** The revision expectations an operation carries. */
  predicate GivesGuard(op: Operation, ref: CollectionRef, revision: Word64) {
    match op
    case RenameCollection(target, from, to, expectedSource, _, expectedDestination) =>
      (ref == CollectionRef(target, from) && expectedSource == Some(revision))
      || (ref == CollectionRef(target, to) && expectedDestination == Some(revision))
    case TransferProperty(source, _, destination, _, expectedSource, expectedDestination, _, _) =>
      || (ref == source && expectedSource == Some(revision))
      || (ref == destination && expectedDestination == Some(revision))
    case TransferCollection(source, destination, expectedSource, expectedDestination, _, _) =>
      || (ref == source && expectedSource == Some(revision))
      || (ref == destination && expectedDestination == Some(revision))
    case ImportCollection(destination, _, expectedDestination, _) =>
      ref == destination && expectedDestination == Some(revision)
    case _ => ref == op.ref && op.expected == Some(revision)
  }

  /** A whole collection copied or renamed onto itself. */
  predicate SelfCopy(op: Operation) {
    (op.TransferCollection? && op.source == op.destination) || (op.RenameCollection? && op.from == op.to)
  }

  /** The operation is never applied without all its expectations having been
      compared: not so for a self-copy that may overwrite and whose destination
      expectation differs from its source expectation. */
  predicate ReadsEveryGuard(op: Operation) {
    SelfCopy(op) ==>
      op.policy.FailIfDestinationExists? || op.expectedDestination.None? || op.expectedDestination == op.expectedSource
  }

  /** An expectation that is compared before the operation is applied.  The source
      expectation always is. */
  predicate ReadsGuard(op: Operation, ref: CollectionRef, revision: Word64) {
    GivesGuard(op, ref, revision) && (!ReadsEveryGuard(op) ==> op.expectedSource == Some(revision))
  }

  /** An unforced commit found every revision it expected and that is compared, also
      when both expectations of a property transfer speak of one collection. */
  lemma GuardsHonoured(
    make: SnapshotMaker, availability: Availability, store: Store, op: Operation,
    ref: CollectionRef, revision: Word64)
    requires ApplyTo(make, availability, store, op, false).result.Ok()
    requires ReadsGuard(op, ref, revision)
    ensures SnapshotIn(make, store, ref).revision == revision
  {
    AppliedIff(make, availability, store, op, false);
    AppliedIsNoRefusedCopy(store, op);
    GivenIsExpected(op, ref, revision);
    hide ApplyTo, Perform, ExpectedRevision, ReadsGuard, SelfCopy, OperationCollections;
    assert GuardHolds(make, store, op, ref);
  }

  /** A self-copy that must not overwrite is never applied. */
  lemma AppliedIsNoRefusedCopy(store: Store, op: Operation)
    requires Perform(store, op).Done?
    ensures SelfCopy(op) ==> !op.policy.FailIfDestinationExists?
  {
  }

  /** What an operation that can be applied expects of a collection, and reads, is
      what is compared. */
  lemma GivenIsExpected(op: Operation, ref: CollectionRef, revision: Word64)
    requires ReadsGuard(op, ref, revision) && !ConflictingExpectations(op)
    requires SelfCopy(op) ==> !op.policy.FailIfDestinationExists?
    ensures Names(op, ref) && ExpectedRevision(op, ref) == Some(revision)
  {
    var refs := OperationCollections(op);
    assert refs[0] in refs && (|refs| > 1 ==> refs[1] in refs);
  }

  /** Whatever store, availability and revisions there are, the operation is not
      applied unforced on another revision of `ref` than the given one. */
  ghost predicate AlwaysHonours(op: Operation, ref: CollectionRef, revision: Word64) {
    forall make: SnapshotMaker, availability: Availability, store: Store ::
      ApplyTo(make, availability, store, op, false).result.Ok() ==> SnapshotIn(make, store, ref).revision == revision
  }

  /** An expectation is honoured by every unforced commit if and only if it is one
      that is read. */
  lemma HonouredIffRead(op: Operation, ref: CollectionRef, revision: Word64)
    requires GivesGuard(op, ref, revision)
    ensures AlwaysHonours(op, ref, revision) <==> ReadsGuard(op, ref, revision)
  {
    hide ApplyTo, SnapshotIn;
    if ReadsGuard(op, ref, revision) {
      forall make: SnapshotMaker, availability: Availability, store: Store |
        ApplyTo(make, availability, store, op, false).result.Ok()
        ensures SnapshotIn(make, store, ref).revision == revision
      {
        GuardsHonoured(make, availability, store, op, ref, revision);
      }
    } else {
      var actual := if op.expectedSource.Some? then op.expectedSource.value else Other(revision);
      UnreadGuardIgnored(op, ref, revision, actual);
    }
  }

  function Other(revision: Word64): (r: Word64)
    ensures r != revision
  {
    if revision == 0 then 1 else 0
  }

  /** Every snapshot shows the same revision. */
  function Showing(revision: Word64): SnapshotMaker {
    (ref, properties, present) => Snapshot(ref, properties, 0, revision, present, true, true, true)
  }

  /** A self-copy with a destination expectation that is not read commits on another
      revision. */
  lemma UnreadGuardIgnored(op: Operation, ref: CollectionRef, revision: Word64, actual: Word64)
    requires GivesGuard(op, ref, revision) && !ReadsGuard(op, ref, revision)
    requires actual == if op.expectedSource.Some? then op.expectedSource.value else Other(revision)
    ensures !AlwaysHonours(op, ref, revision)
  {
    var store: Store := map[ref := map[]];
    var available: Availability := map[];
    UnreadCopyApplies(Showing(actual), available, store, op, ref);
    hide ApplyTo;
    assert SnapshotIn(Showing(actual), store, ref).revision != revision;
  }

  /** Such a self-copy is applied whenever its collection exists and is available and
      the source expectation, if any, is met. */
  lemma UnreadCopyApplies(
    make: SnapshotMaker, availability: Availability, store: Store, op: Operation, ref: CollectionRef)
    requires !ReadsEveryGuard(op) && Names(op, ref) && ref in store && TargetAvailable(availability, ref.target)
    requires op.expectedSource.Some? ==> SnapshotIn(make, store, ref).revision == op.expectedSource.value
    ensures ApplyTo(make, availability, store, op, false).result.Ok()
  {
    assert forall other :: Names(op, other) ==> other == ref;
    assert GuardHolds(make, store, op, ref);
    assert Perform(store, op).Done? && !ConflictingExpectations(op);
    hide ApplyTo, Perform, Names, GuardHolds, ReadsEveryGuard;
    AppliedIff(make, availability, store, op, false);
  }

  /** An operation honours every expectation it carries, in every store and under
      every revision function, if and only if it is no self-copy with a destination
      expectation of its own that may overwrite. */
  lemma EveryGuardHonouredIff(op: Operation)
    ensures (forall ref, revision :: GivesGuard(op, ref, revision) ==> AlwaysHonours(op, ref, revision))
       <==> ReadsEveryGuard(op)
  {
    hide AlwaysHonours;
    forall ref, revision | GivesGuard(op, ref, revision)
      ensures AlwaysHonours(op, ref, revision) <==> ReadsGuard(op, ref, revision)
    {
      HonouredIffRead(op, ref, revision);
    }
    if !ReadsEveryGuard(op) {
      var refs := OperationCollections(op);
      assert GivesGuard(op, refs[0], op.expectedDestination.value);
      assert !ReadsGuard(op, refs[0], op.expectedDestination.value);
    }
  }

  function WithoutDestinationGuard(op: Operation): Operation
    requires SelfCopy(op)
  {
    match op
    case TransferCollection(source, destination, guard, _, policy, removeSource) =>
      TransferCollection(source, destination, guard, None, policy, removeSource)
    case RenameCollection(target, from, to, guard, policy, _) =>
      RenameCollection(target, from, to, guard, policy, None)
  }

  /** The destination expectation of a self-copy is never read: any value there gives
      the very same outcome as none. */
  lemma SelfCopyIgnoresDestinationGuard(
    make: SnapshotMaker, availability: Availability, store: Store, op: Operation, force: bool)
    requires SelfCopy(op)
    ensures ApplyTo(make, availability, store, op, force)
         == ApplyTo(make, availability, store, WithoutDestinationGuard(op), force)
  {
    var plain := WithoutDestinationGuard(op);
    assert Perform(store, op) == Perform(store, plain);
    hide Perform;
    SelfCopyReadsOneGuard(make, availability, store, op, plain, OperationCollections(op), force);
  }

  lemma SelfCopyReadsOneGuard(
    make: SnapshotMaker, availability: Availability, store: Store, op: Operation, plain: Operation,
    refs: seq<CollectionRef>, force: bool)
    requires SelfCopy(op) && plain == WithoutDestinationGuard(op) && refs == OperationCollections(op)
    ensures OperationCollections(plain) == refs
    ensures CheckGuards(make, availability, store, op, Distinct(refs), force)
         == CheckGuards(make, availability, store, plain, Distinct(refs), force)
  {
    var ref := refs[0];
    assert refs == [ref, ref];
    DistinctPair(ref);
    assert ExpectedRevision(op, ref) == ExpectedRevision(plain, ref);
    CheckOne(make, availability, store, op, ref, force);
    CheckOne(make, availability, store, plain, ref, force);
  }

  lemma CheckOne(
    make: SnapshotMaker, availability: Availability, store: Store, op: Operation, ref: CollectionRef, force: bool)
    ensures CheckGuards(make, availability, store, op, [ref], force)
         == if !TargetAvailable(availability, ref.target) then Captures([], Some(TargetUnavailable))
            else if !force && !GuardHolds(make, store, op, ref)
            then Captures([SnapshotIn(make, store, ref)], Some(Conflict))
            else Captures([SnapshotIn(make, store, ref)], None)
  {
    hide ExpectedRevision;
    assert [ref][..0] == [];
  }

  lemma DistinctPair(ref: CollectionRef)
    ensures Distinct([ref, ref]) == [ref]
  {
    assert [ref, ref][..1] == [ref] && [ref][..0] == [];
    assert Distinct([ref]) == [ref];
  }

  // Transactions

  /** The left fold of the operations. */
  function PerformAll(store: Store, ops: seq<Operation>): Outcome {
    if ops == [] then Done(store)
    else
      var n := |ops| - 1;
      var front := PerformAll(store, ops[..n]);
      if front.Refused? then front else Perform(front.store, ops[n])
  }

  /** A run that did not fail is the left fold and every result is `Applied`; a
      run that failed has results that are all `Applied` except the last. */
  lemma {:induction false} RunAllIsFold(
    make: SnapshotMaker, availability: Availability, store: Store, ops: seq<Operation>, force: bool)
    ensures var run := RunAll(make, availability, store, ops, force);
            && |run.results| <= |ops|
            && (!run.failed ==>
                  && |run.results| == |ops|
                  && PerformAll(store, ops) == Done(run.candidate)
                  && forall i :: 0 <= i < |ops| ==> run.results[i].Ok())
            && (run.failed ==>
                  && |run.results| > 0
                  && !run.results[|run.results| - 1].Ok()
                  && forall i :: 0 <= i < |run.results| - 1 ==> run.results[i].Ok())
  {
    hide Perform, ApplyTo;
    if ops != [] {
      var n := |ops| - 1;
      RunAllIsFold(make, availability, store, ops[..n], force);
      var front := RunAll(make, availability, store, ops[..n], force);
      if !front.failed {
        AppliedMeans(make, availability, front.candidate, ops[n], force,
                     ApplyTo(make, availability, front.candidate, ops[n], force),
                     Distinct(OperationCollections(ops[n])), Perform(front.candidate, ops[n]));
      }
    }
  }

  /** Every target the operations name is available. */
  ghost predicate AllAvailable(availability: Availability, ops: seq<Operation>) {
    forall i, ref :: 0 <= i < |ops| && Names(ops[i], ref) ==> TargetAvailable(availability, ref.target)
  }

  predicate NoClashes(ops: seq<Operation>) {
    forall i :: 0 <= i < |ops| ==> !ConflictingExpectations(ops[i])
  }

  /** A forced run on available targets fails exactly when the fold is refused, and
      otherwise reaches the store of the fold. */
  lemma {:induction false} ForcedRunIsFold(
    make: SnapshotMaker, availability: Availability, store: Store, ops: seq<Operation>)
    requires AllAvailable(availability, ops) && NoClashes(ops)
    ensures RunAll(make, availability, store, ops, true).failed <==> PerformAll(store, ops).Refused?
    ensures PerformAll(store, ops).Done? ==>
              RunAll(make, availability, store, ops, true).candidate == PerformAll(store, ops).store
  {
    hide Perform, ApplyTo, Names, TargetAvailable, ConflictingExpectations;
    if ops != [] {
      var n := |ops| - 1;
      ForcedRunIsFold(make, availability, store, ops[..n]);
      var front := RunAll(make, availability, store, ops[..n], true);
      if !front.failed {
        AppliedIff(make, availability, front.candidate, ops[n], true);
        AppliedMeans(make, availability, front.candidate, ops[n], true,
                     ApplyTo(make, availability, front.candidate, ops[n], true),
                     Distinct(OperationCollections(ops[n])), Perform(front.candidate, ops[n]));
      }
    }
  }

  /** A transaction installs the fold of all its operations or leaves the store
      unchanged, whatever `rollbackOnFailure` says. */
  lemma TransactAllOrNothing(make: SnapshotMaker, availability: Availability, store: Store, tx: Transaction)
    ensures var t := TransactOn(make, availability, store, tx);
            && (t.result.status == Applied ==>
                  && PerformAll(store, tx.operations) == Done(t.store)
                  && |t.result.results| == |tx.operations|
                  && forall i :: 0 <= i < |tx.operations| ==> t.result.results[i].Ok())
            && t.result.status in {Applied, TransactionFailed}
            && (t.result.rolledBack <==> t.result.status != Applied && tx.rollbackOnFailure)
            && (t.result.status != Applied ==>
                  && t.store == store
                  && 0 < |t.result.results| <= |tx.operations|
                  && !t.result.results[|t.result.results| - 1].Ok()
                  && forall i :: 0 <= i < |t.result.results| - 1 ==> t.result.results[i].Ok())
            && t.store == TransactOn(make, availability, store, tx.(rollbackOnFailure := !tx.rollbackOnFailure)).store
  {
    RunAllIsFold(make, availability, store, tx.operations, tx.force);
  }

  // Bulk operations equal small ones

  function Sets(ref: CollectionRef, values: Properties, order: seq<string>): seq<Operation>
    requires forall k :: k in order ==> k in values
  {
    seq(|order|, i requires 0 <= i < |order| => SetProperty(ref, order[i], values[order[i]], None))
  }

  function Removals(ref: CollectionRef, order: seq<string>): seq<Operation> {
    seq(|order|, i requires 0 <= i < |order| => RemoveProperty(ref, order[i], None, false))
  }

  lemma PartStep(base: Properties, values: Properties, keys: seq<string>)
    requires keys != [] && forall k :: k in keys ==> k in values
    ensures var n := |keys| - 1;
            (base + Part(values, keys[..n]))[keys[n] := values[keys[n]]] == base + Part(values, keys)
  {
    assert keys == keys[..|keys| - 1] + [keys[|keys| - 1]];
  }

  lemma {:induction false} SetsAccumulate(store: Store, ref: CollectionRef, values: Properties, order: seq<string>)
    requires forall k :: k in order ==> k in values
    ensures PerformAll(store, Sets(ref, values, order))
         == if order == [] then Done(store) else Done(store[ref := Lookup(store, ref) + Part(values, order)])
  {
    hide Perform;
    if order != [] {
      var n := |order| - 1;
      var ops := Sets(ref, values, order);
      assert ops[..n] == Sets(ref, values, order[..n]);
      SetsAccumulate(store, ref, values, order[..n]);
      var base := Lookup(store, ref);
      PartStep(base, values, order);
      OneSet(store, ref, base + Part(values, order[..n]), order[n], values[order[n]]);
      if n == 0 { assert base + Part(values, order[..n]) == base; }
    }
  }

  lemma OneSet(store: Store, ref: CollectionRef, m: Properties, key: string, value: Value)
    ensures Perform(store[ref := m], SetProperty(ref, key, value, None)) == Done(store[ref := m[key := value]])
    ensures m == Lookup(store, ref) ==>
              Perform(store, SetProperty(ref, key, value, None)) == Done(store[ref := m[key := value]])
  {
  }

  /** A non-empty `SetMany` equals its entries set one by one, in any order. */
  lemma SetManyIsSets(store: Store, ref: CollectionRef, values: Properties, order: seq<string>, guard: Guard)
    requires values != map[] && forall k :: k in order <==> k in values
    ensures PerformAll(store, Sets(ref, values, order)) == Perform(store, SetMany(ref, values, guard))
  {
    SetsAccumulate(store, ref, values, order);
    assert Part(values, order) == values;
  }

  lemma {:induction false} RemovalsAccumulate(store: Store, ref: CollectionRef, order: seq<string>)
    ensures PerformAll(store, Removals(ref, order))
         == Done(if ref in store then store[ref := store[ref] - KeySet(order)] else store)
  {
    if order == [] {
      if ref in store { assert store[ref] - KeySet(order) == store[ref]; }
    } else {
      var n := |order| - 1;
      var ops := Removals(ref, order);
      assert order == order[..n] + [order[n]];
      assert ops[..n] == Removals(ref, order[..n]);
      RemovalsAccumulate(store, ref, order[..n]);
      if ref in store {
        var front := store[ref] - KeySet(order[..n]);
        assert front - {order[n]} == store[ref] - KeySet(order);
        if order[n] !in front { assert front - {order[n]} == front; }
      }
    }
  }

  /** `RemoveMany` without `requireAllExisting` equals single removals of the same
      keys, in any order and with any repeats. */
  lemma RemoveManyIsRemovals(store: Store, ref: CollectionRef, keys: seq<string>, order: seq<string>, guard: Guard)
    requires KeySet(keys) == KeySet(order)
    ensures PerformAll(store, Removals(ref, order)) == Perform(store, RemoveMany(ref, keys, guard, false))
  {
    RemovalsAccumulate(store, ref, order);
  }

  /** Importing with `Merge` is setting many. */
  lemma ImportMergeIsSetMany(store: Store, ref: CollectionRef, values: Properties, guard: Guard)
    ensures Perform(store, ImportCollection(ref, values, guard, Merge)) == Perform(store, SetMany(ref, values, guard))
  {
    if ref !in store { assert Lookup(store, ref) + values == values; }
  }

  /** A rename is a move to a collection of the same target. */
  lemma RenameIsMove(store: Store, target: Target, from: string, to: string, gs: Guard, policy: ImportPolicy, gd: Guard)
    requires from != to
    ensures Perform(store, RenameCollection(target, from, to, gs, policy, gd))
         == Perform(store, TransferCollection(CollectionRef(target, from), CollectionRef(target, to), gs, gd, policy,
                                              true))
  {
    assert CollectionRef(target, from) != CollectionRef(target, to);
  }

  /** A rename to a fresh name is undone by the opposite rename. */
  lemma RenameUndone(store: Store, target: Target, from: string, to: string, g: Guard, h: Guard, policy: ImportPolicy)
    requires from != to
    requires Perform(store, RenameCollection(target, from, to, g, FailIfDestinationExists, h)).Done?
    ensures var renamed := Perform(store, RenameCollection(target, from, to, g, FailIfDestinationExists, h)).store;
            Perform(renamed, RenameCollection(target, to, from, g, policy, h)) == Done(store)
  {
    var source, destination := CollectionRef(target, from), CollectionRef(target, to);
    assert source != destination;
    var renamed := store[destination := store[source]] - {source};
    assert renamed[source := renamed[destination]] - {destination} == store;
  }
}
