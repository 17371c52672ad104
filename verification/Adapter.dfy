/** The in-memory adapter: a store updated in place, and transactions that run on
    a candidate copy and swap it in when every operation was applied. */
module Adapter {
  import opened Types
  import opened Store
  import StoreLaws
  import Ordering

  /** A `Store` passed by reference. */
  class StoreCell {
    var entries: Store

    constructor (entries: Store)
      ensures this.entries == entries
    {
      this.entries := entries;
    }

    /** `store[ref]`, which inserts an empty collection when there is none. */
    method Slot(ref: CollectionRef)
      modifies this
      ensures entries == old(entries)[ref := Lookup(old(entries), ref)]
    {
      if ref !in entries {
        entries := entries[ref := map[]];
      }
    }

    /** Writes through the reference that `Slot` gave. */
    method Assign(ref: CollectionRef, properties: Properties)
      requires ref in entries
      modifies this
      ensures entries == old(entries)[ref := properties]
    {
      entries := entries[ref := properties];
    }

    method PerformSet(op: Operation) returns (refusal: Option<Status>)
      requires op.SetProperty? || op.SetMany?
      modifies this
      ensures Realizes(old(entries), op, refusal, entries)
    {
      Slot(op.ref);
      if op.SetProperty? {
        Assign(op.ref, entries[op.ref][op.key := op.value]);
      } else {
        var merged := MergeInto(entries[op.ref], op.values);
        Assign(op.ref, merged);
      }
      refusal := None;
    }

    method PerformRemove(op: Operation) returns (refusal: Option<Status>)
      requires op.RemoveProperty?
      modifies this
      ensures Realizes(old(entries), op, refusal, entries)
    {
      if op.ref !in entries || op.key !in entries[op.ref] {
        if op.requireExisting { return Some(NotFound); }
      } else {
        Assign(op.ref, entries[op.ref] - {op.key});
      }
      refusal := None;
    }

    method PerformRemoveMany(op: Operation) returns (refusal: Option<Status>)
      requires op.RemoveMany?
      modifies this
      ensures Realizes(old(entries), op, refusal, entries)
    {
      if op.requireAllExisting {
        for i := 0 to |op.keys|
          invariant entries == old(entries)
          invariant KeySet(op.keys[..i]) <= Lookup(entries, op.ref).Keys
        {
          KeySetStep(op.keys, i);
          if op.ref !in entries || op.keys[i] !in entries[op.ref] {
            assert op.keys[i] in KeySet(op.keys);
            return Some(NotFound);
          }
        }
      }
      if op.ref in entries {
        ghost var were := entries[op.ref];
        assert were - KeySet(op.keys[..0]) == were;
        for i := 0 to |op.keys|
          invariant op.ref in entries
          invariant entries == old(entries)[op.ref := old(entries)[op.ref] - KeySet(op.keys[..i])]
        {
          KeySetStep(op.keys, i);
          Assign(op.ref, entries[op.ref] - {op.keys[i]});
          assert were - KeySet(op.keys[..i]) - {op.keys[i]} == were - KeySet(op.keys[..i + 1]);
        }
      }
      assert op.keys[..|op.keys|] == op.keys;
      refusal := None;
    }

    method PerformClear(op: Operation) returns (refusal: Option<Status>)
      requires op.ClearCollection?
      modifies this
      ensures Realizes(old(entries), op, refusal, entries)
    {
      if op.removeCollection {
        entries := entries - {op.ref};
      } else {
        Slot(op.ref);
        Assign(op.ref, map[]);
      }
      refusal := None;
    }

    /** The common part of rename, collection transfer and import. */
    method PerformDeposit(destination: CollectionRef, incoming: Properties, policy: ImportPolicy)
      returns (refusal: Option<Status>)
      modifies this
      ensures Agrees(old(entries), Deposit(old(entries), destination, incoming, policy), refusal, entries)
    {
      if policy.FailIfDestinationExists? && destination in entries { return Some(Conflict); }
      if policy.Merge? && destination in entries {
        var merged := MergeInto(entries[destination], incoming);
        entries := entries[destination := merged];
      } else {
        entries := entries[destination := incoming];
      }
      refusal := None;
    }

    method PerformRename(op: Operation) returns (refusal: Option<Status>)
      requires op.RenameCollection?
      modifies this
      ensures Realizes(old(entries), op, refusal, entries)
    {
      var source, destination := CollectionRef(op.target, op.from), CollectionRef(op.target, op.to);
      if source !in entries { return Some(NotFound); }
      refusal := PerformDeposit(destination, entries[source], op.policy);
      if refusal.None? {
        entries := entries - {source};
      }
    }

    /** Creates the destination entry before it looks for a conflict there. */
    method PerformTransferProperty(op: Operation) returns (refusal: Option<Status>)
      requires op.TransferProperty?
      modifies this
      ensures Realizes(old(entries), op, refusal, entries)
    {
      if op.source !in entries || op.sourceKey !in entries[op.source] { return Some(NotFound); }
      Slot(op.destination);
      if !op.overwrite && op.destinationKey in entries[op.destination] {
        assert entries == old(entries);
        return Some(Conflict);
      }
      var value := entries[op.source][op.sourceKey];
      Assign(op.destination, entries[op.destination][op.destinationKey := value]);
      if op.removeSource {
        Assign(op.source, entries[op.source] - {op.sourceKey});
      }
      refusal := None;
    }

    method PerformTransferCollection(op: Operation) returns (refusal: Option<Status>)
      requires op.TransferCollection?
      modifies this
      ensures Realizes(old(entries), op, refusal, entries)
    {
      if op.source !in entries { return Some(NotFound); }
      refusal := PerformDeposit(op.destination, entries[op.source], op.policy);
      if refusal.None? && op.removeSource && op.source != op.destination {
        entries := entries - {op.source};
      }
    }

    method PerformInPlace(op: Operation) returns (refusal: Option<Status>)
      modifies this
      ensures Realizes(old(entries), op, refusal, entries)
    {
      match op {
        case SetProperty(_, _, _, _) => refusal := PerformSet(op);
        case SetMany(_, _, _) => refusal := PerformSet(op);
        case RemoveProperty(_, _, _, _) => refusal := PerformRemove(op);
        case RemoveMany(_, _, _, _) => refusal := PerformRemoveMany(op);
        case ClearCollection(_, _, _) => refusal := PerformClear(op);
        case RenameCollection(_, _, _, _, _, _) => refusal := PerformRename(op);
        case TransferProperty(_, _, _, _, _, _, _, _) => refusal := PerformTransferProperty(op);
        case TransferCollection(_, _, _, _, _, _) => refusal := PerformTransferCollection(op);
        case ImportCollection(destination, properties, _, policy) =>
          refusal := PerformDeposit(destination, properties, policy);
      }
    }
  }

  /** An in-place run agrees with an outcome: it installs the new store, or it
      reports the refusal and has changed nothing. */
  ghost predicate Agrees(before: Store, outcome: Outcome, refusal: Option<Status>, after: Store) {
    match outcome
    case Done(store) => refusal.None? && after == store
    case Refused(status) => refusal == Some(status) && after == before
  }

  ghost predicate Realizes(before: Store, op: Operation, refusal: Option<Status>, after: Store) {
    Agrees(before, Perform(before, op), refusal, after)
  }

  /** `insert_or_assign` for every entry of `source`. */
  method MergeInto(destination: Properties, source: Properties) returns (merged: Properties)
    ensures merged == destination + source
  {
    merged := destination;
    var keys := Ordering.Enumerate(source.Keys);
    for i := 0 to |keys|
      invariant merged == destination + Part(source, keys[..i])
    {
      assert keys[..i + 1] == keys[..i] + [keys[i]];
      merged := merged[keys[i] := source[keys[i]]];
    }
    assert keys[..|keys|] == keys;
    assert Part(source, keys) == source;
  }

  lemma KeySetStep(keys: seq<string>, i: nat)
    requires i < |keys|
    ensures KeySet(keys[..i + 1]) == KeySet(keys[..i]) + {keys[i]}
  {
    assert keys[..i + 1] == keys[..i] + [keys[i]];
  }

  class InMemoryAdapter {
    const make: SnapshotMaker
    const store: StoreCell
    var availability: Availability

    constructor (make: SnapshotMaker)
      ensures this.make == make && fresh(store) && store.entries == map[] && availability == map[]
    {
      this.make := make;
      store := new StoreCell(map[]);
      availability := map[];
    }

    method CaptureUnlocked(cell: StoreCell, ref: CollectionRef) returns (snapshot: Option<Snapshot>)
      ensures snapshot == if TargetAvailable(availability, ref.target)
                          then Some(SnapshotIn(make, cell.entries, ref)) else None
    {
      if !TargetAvailable(availability, ref.target) { return None; }
      if ref !in cell.entries {
        snapshot := Some(make(ref, map[], false));
      } else {
        snapshot := Some(make(ref, cell.entries[ref], true));
      }
    }

    /** Snapshots every collection once and compares the expected revisions. */
    method CaptureAndCheck(cell: StoreCell, op: Operation, refs: seq<CollectionRef>, force: bool)
      returns (before: seq<Snapshot>, refusal: Option<Status>)
      ensures Captures(before, refusal) == CheckGuards(make, availability, cell.entries, op, refs, force)
    {
      before, refusal := [], None;
      for i := 0 to |refs|
        invariant refusal.None?
        invariant Captures(before, refusal) == CheckGuards(make, availability, cell.entries, op, refs[..i], force)
      {
        CheckStep(make, availability, cell.entries, op, refs, i, force, before);
        var captured := CaptureUnlocked(cell, refs[i]);
        if captured.None? {
          CheckStops(make, availability, cell.entries, op, refs, i + 1, force);
          return before, Some(TargetUnavailable);
        }
        before := before + [captured.value];
        var expected := ExpectedRevision(op, refs[i]);
        if !force && expected.Some? && expected.value != captured.value.revision {
          CheckStops(make, availability, cell.entries, op, refs, i + 1, force);
          return before, Some(Conflict);
        }
      }
      assert refs[..|refs|] == refs;
    }

    /** Snapshots the collections after an operation. */
    method CaptureAfter(cell: StoreCell, refs: seq<CollectionRef>) returns (after: seq<Snapshot>, revision: Word64)
      requires refs != [] && forall i :: 0 <= i < |refs| ==> TargetAvailable(availability, refs[i].target)
      ensures after == SnapshotsIn(make, cell.entries, refs)
      ensures revision == SnapshotIn(make, cell.entries, refs[|refs| - 1]).revision
    {
      after, revision := [], 0;
      for i := 0 to |refs|
        invariant after == SnapshotsIn(make, cell.entries, refs[..i])
        invariant i > 0 ==> revision == SnapshotIn(make, cell.entries, refs[i - 1]).revision
      {
        var captured := CaptureUnlocked(cell, refs[i]);
        if captured.Some? {
          after := after + [captured.value];
          revision := captured.value.revision;
        }
      }
      assert refs[..|refs|] == refs;
    }

    /** The part after the guards: run the operation and snapshot its outcome. */
    method PerformAndCapture(cell: StoreCell, op: Operation, refs: seq<CollectionRef>, before: seq<Snapshot>)
      returns (result: OperationResult)
      requires refs != [] && forall i :: 0 <= i < |refs| ==> TargetAvailable(availability, refs[i].target)
      modifies cell
      ensures Applying(cell.entries, result)
           == Finish(make, old(cell.entries), refs, before, Perform(old(cell.entries), op))
      ensures !result.Ok() ==> cell.entries == old(cell.entries)
    {
      ghost var outcome := Perform(cell.entries, op);
      var refusal := cell.PerformInPlace(op);
      assert Agrees(old(cell.entries), outcome, refusal, cell.entries);
      if refusal.Some? { return Failed(refusal.value, before); }
      var after, revision := CaptureAfter(cell, refs);
      result := OperationResult(Applied, before, after, revision);
    }

    /** Applies one operation to `cell`.  Whenever the result is not `Applied`,
        the store is exactly what it was. */
    method ApplyUnlocked(cell: StoreCell, op: Operation, force: bool) returns (result: OperationResult)
      modifies cell
      ensures Applying(cell.entries, result) == ApplyTo(make, availability, old(cell.entries), op, force)
      ensures !result.Ok() ==> cell.entries == old(cell.entries)
    {
      hide Perform, CheckGuards, SnapshotsIn, OperationCollections, ConflictingExpectations, Finish;
      if ConflictingExpectations(op) { return Failed(InvalidValue, []); }
      var refs := Distinct(OperationCollections(op));
      StoreLaws.NamesSomething(op);
      var before, refusal := CaptureAndCheck(cell, op, refs, force);
      if refusal.Some? { return Failed(refusal.value, before); }
      result := PerformAndCapture(cell, op, refs, before);
    }

    method Apply(op: Operation, force: bool) returns (result: OperationResult)
      modifies store
      ensures Applying(store.entries, result) == ApplyTo(make, availability, old(store.entries), op, force)
      ensures !result.Ok() ==> store.entries == old(store.entries)
    {
      result := ApplyUnlocked(store, op, force);
    }

    /** Runs the operations on a candidate copy; the copy is swapped in only when
        all of them were applied. */
    method Transact(tx: Transaction) returns (result: TransactionResult)
      modifies store
      ensures Transacting(store.entries, result) == TransactOn(make, availability, old(store.entries), tx)
      ensures result.status != Applied ==> store.entries == old(store.entries)
    {
      var candidate := new StoreCell(store.entries);
      var results := [];
      for i := 0 to |tx.operations|
        invariant store.entries == old(store.entries)
        invariant Progress(candidate.entries, results, false)
               == RunAll(make, availability, old(store.entries), tx.operations[..i], tx.force)
      {
        RunAllStep(make, availability, old(store.entries), tx.operations, i, tx.force,
                   Progress(candidate.entries, results, false));
        var result := ApplyUnlocked(candidate, tx.operations[i], tx.force);
        results := results + [result];
        if !result.Ok() {
          RunAllFails(make, availability, old(store.entries), tx.operations, i + 1, tx.force);
          return TransactionResult(TransactionFailed, results, tx.rollbackOnFailure);
        }
      }
      assert tx.operations[..|tx.operations|] == tx.operations;
      store.entries, candidate.entries := candidate.entries, store.entries;
      result := TransactionResult(Applied, results, false);
    }

    method SetTargetAvailable(target: Target, available: bool)
      modifies this`availability
      ensures availability == old(availability)[target := available]
    {
      availability := availability[target := available];
    }
  }

  lemma CheckStep(
    make: SnapshotMaker, availability: Availability, store: Store, op: Operation,
    refs: seq<CollectionRef>, i: nat, force: bool, before: seq<Snapshot>)
    requires i < |refs|
    requires CheckGuards(make, availability, store, op, refs[..i], force) == Captures(before, None)
    ensures CheckGuards(make, availability, store, op, refs[..i + 1], force)
         == if !TargetAvailable(availability, refs[i].target) then Captures(before, Some(TargetUnavailable))
            else if !force && !GuardHolds(make, store, op, refs[i])
            then Captures(before + [SnapshotIn(make, store, refs[i])], Some(Conflict))
            else Captures(before + [SnapshotIn(make, store, refs[i])], None)
  {
    assert refs[..i + 1][..i] == refs[..i];
  }

  lemma {:induction false} CheckStops(
    make: SnapshotMaker, availability: Availability, store: Store, op: Operation,
    refs: seq<CollectionRef>, i: nat, force: bool)
    requires i <= |refs| && CheckGuards(make, availability, store, op, refs[..i], force).refusal.Some?
    ensures CheckGuards(make, availability, store, op, refs, force)
         == CheckGuards(make, availability, store, op, refs[..i], force)
    decreases |refs|
  {
    if i < |refs| {
      var shorter := refs[..|refs| - 1];
      assert shorter[..i] == refs[..i];
      CheckStops(make, availability, store, op, shorter, i, force);
    } else {
      assert refs[..i] == refs;
    }
  }

  lemma RunAllStep(
    make: SnapshotMaker, availability: Availability, store: Store, ops: seq<Operation>, i: nat, force: bool,
    front: Progress)
    requires i < |ops| && front == RunAll(make, availability, store, ops[..i], force) && !front.failed
    ensures RunAll(make, availability, store, ops[..i + 1], force)
         == Extended(front, ApplyTo(make, availability, front.candidate, ops[i], force))
  {
    assert ops[..i + 1][..i] == ops[..i];
  }

  function Extended(front: Progress, last: Applying): Progress {
    Progress(last.store, front.results + [last.result], !last.result.Ok())
  }

  lemma {:induction false} RunAllFails(
    make: SnapshotMaker, availability: Availability, store: Store, ops: seq<Operation>, i: nat, force: bool)
    requires i <= |ops| && RunAll(make, availability, store, ops[..i], force).failed
    ensures RunAll(make, availability, store, ops, force) == RunAll(make, availability, store, ops[..i], force)
    decreases |ops|
  {
    if i < |ops| {
      var shorter := ops[..|ops| - 1];
      assert shorter[..i] == ops[..i];
      RunAllFails(make, availability, store, shorter, i, force);
    } else {
      assert ops[..i] == ops;
    }
  }
}
