/** `validatePropertyLimits`: captures the named collections, then runs the
    operations on two maps that it updates in place. */
module Preflight {
  import opened Types
  import opened Store
  import opened Simulator
  import opened Commit
  import opened Adapter
  import Ordering
  import Revision

  /** The maps `keys` and `exists`. */
  class Simulation {
    var keys: map<CollectionRef, set<string>>
    var present: map<CollectionRef, bool>

    constructor ()
      ensures Now() == Sim(map[], map[])
    {
      keys, present := map[], map[];
    }

    ghost function Now(): Sim
      reads this
    {
      Sim(keys, present)
    }

    function KeysOf(ref: CollectionRef): (k: set<string>)
      reads this
      ensures k == Now().Keys(ref)
    {
      if ref in keys then keys[ref] else {}
    }

    predicate Exists(ref: CollectionRef)
      reads this
      ensures Exists(ref) <==> Now().Present(ref)
    {
      ref in present && present[ref]
    }

    /** Inserts keys one by one; the entry is created by the first. */
    method InsertKeys(ref: CollectionRef, added: set<string>)
      modifies this`keys
      ensures keys == if added == {} then old(keys) else old(keys)[ref := old(KeysOf(ref)) + added]
    {
      var order := Ordering.Enumerate(added);
      ghost var base := KeysOf(ref);
      for i := 0 to |order|
        invariant keys == if i == 0 then old(keys) else old(keys)[ref := base + KeySet(order[..i])]
      {
        KeySetStep(order, i);
        ghost var before := KeysOf(ref);
        keys := keys[ref := KeysOf(ref) + {order[i]}];
        assert before == base + KeySet(order[..i]);
        assert before + {order[i]} == base + KeySet(order[..i + 1]);
      }
      assert order[..|order|] == order && KeySet(order) == added;
      assert order != [] ==> order[0] in added;
      if added != {} {
        var k :| k in added;
        assert k in order;
      }
    }

    method EraseKeys(ref: CollectionRef, removed: seq<string>)
      modifies this`keys
      ensures keys == old(keys)[ref := old(KeysOf(ref)) - KeySet(removed)]
    {
      ghost var base := KeysOf(ref);
      keys := keys[ref := KeysOf(ref)];
      assert base - KeySet(removed[..0]) == base;
      for i := 0 to |removed|
        invariant keys == old(keys)[ref := base - KeySet(removed[..i])]
      {
        KeySetStep(removed, i);
        keys := keys[ref := KeysOf(ref) - {removed[i]}];
        assert base - KeySet(removed[..i]) - {removed[i]} == base - KeySet(removed[..i + 1]);
      }
      assert removed[..|removed|] == removed;
    }

    method Put(ref: CollectionRef, k: set<string>, bit: bool)
      modifies this
      ensures Now() == old(Now()).With(ref, k, bit)
    {
      keys := keys[ref := k];
      present := present[ref := bit];
    }

    method StepSet(op: Operation) returns (applied: bool)
      requires op.SetProperty? || op.SetMany?
      modifies this
      ensures Stepped(old(Now()), op, applied, Now())
    {
      ghost var base := KeysOf(op.ref);
      keys := keys[op.ref := KeysOf(op.ref)];
      if op.SetProperty? {
        keys := keys[op.ref := KeysOf(op.ref) + {op.key}];
        assert keys == old(keys)[op.ref := base + {op.key}];
      } else {
        InsertKeys(op.ref, op.values.Keys);
        assert base + {} == base;
        assert keys == old(keys)[op.ref := base + op.values.Keys];
      }
      present := present[op.ref := true];
      applied := true;
    }

    method StepRemove(op: Operation) returns (applied: bool)
      requires op.RemoveProperty?
      modifies this
      ensures Stepped(old(Now()), op, applied, Now())
    {
      if op.requireExisting && op.key !in KeysOf(op.ref) { return false; }
      keys := keys[op.ref := KeysOf(op.ref) - {op.key}];
      applied := true;
    }

    method StepRemoveMany(op: Operation) returns (applied: bool)
      requires op.RemoveMany?
      modifies this
      ensures Stepped(old(Now()), op, applied, Now())
    {
      if op.requireAllExisting {
        for i := 0 to |op.keys|
          invariant Now() == old(Now()) && forall k :: k in op.keys[..i] ==> k in KeysOf(op.ref)
        {
          if op.keys[i] !in KeysOf(op.ref) {
            assert op.keys[i] in KeySet(op.keys);
            return false;
          }
        }
        assert op.keys[..|op.keys|] == op.keys;
        assert KeySet(op.keys) <= KeysOf(op.ref);
      }
      EraseKeys(op.ref, op.keys);
      applied := true;
    }

    /** The common part of rename, collection transfer and import. */
    method StepDeposit(destination: CollectionRef, incoming: set<string>, policy: ImportPolicy) returns (applied: bool)
      modifies this
      ensures SimDeposit(old(Now()), destination, incoming, policy) == if applied then Some(Now()) else None
      ensures !applied ==> Now() == old(Now())
    {
      if policy.FailIfDestinationExists? && Exists(destination) { return false; }
      var destinationKeys := if policy.Merge? && Exists(destination) then KeysOf(destination) else {};
      destinationKeys := destinationKeys + incoming;
      Put(destination, destinationKeys, true);
      applied := true;
    }

    method StepMove(op: Operation) returns (applied: bool)
      requires op.RenameCollection? || op.TransferCollection?
      modifies this
      ensures Stepped(old(Now()), op, applied, Now())
    {
      var source := if op.RenameCollection? then CollectionRef(op.target, op.from) else op.source;
      var destination := if op.RenameCollection? then CollectionRef(op.target, op.to) else op.destination;
      if !Exists(source) { return false; }
      applied := StepDeposit(destination, KeysOf(source), op.policy);
      if applied && (op.RenameCollection? || op.removeSource) {
        Put(source, {}, false);
      }
    }

    method StepTransferProperty(op: Operation) returns (applied: bool)
      requires op.TransferProperty?
      modifies this
      ensures Stepped(old(Now()), op, applied, Now())
    {
      if op.sourceKey !in KeysOf(op.source) { return false; }
      if op.destinationKey in KeysOf(op.destination) && !op.overwrite { return false; }
      Put(op.destination, KeysOf(op.destination) + {op.destinationKey}, true);
      if op.removeSource {
        keys := keys[op.source := KeysOf(op.source) - {op.sourceKey}];
      }
      applied := true;
    }

    /** One simulated operation. */
    method Step(op: Operation) returns (applied: bool)
      modifies this
      ensures Stepped(old(Now()), op, applied, Now())
    {
      match op {
        case SetProperty(_, _, _, _) => applied := StepSet(op);
        case SetMany(_, _, _) => applied := StepSet(op);
        case RemoveProperty(_, _, _, _) => applied := StepRemove(op);
        case RemoveMany(_, _, _, _) => applied := StepRemoveMany(op);
        case ClearCollection(ref, _, removeCollection) =>
          Put(ref, {}, !removeCollection);
          applied := true;
        case RenameCollection(_, _, _, _, _, _) => applied := StepMove(op);
        case TransferProperty(_, _, _, _, _, _, _, _) => applied := StepTransferProperty(op);
        case TransferCollection(_, _, _, _, _, _) => applied := StepMove(op);
        case ImportCollection(destination, properties, _, policy) =>
          applied := StepDeposit(destination, properties.Keys, policy);
      }
    }

    /** Whether some key set is over the limit. */
    method AnyExceeds(max: nat) returns (found: bool)
      ensures found <==> Exceeds(Now(), max)
    {
      var rest := keys.Keys;
      while rest != {}
        invariant rest <= keys.Keys
        invariant forall ref :: ref in keys.Keys - rest ==> |keys[ref]| <= max
        decreases |rest|
      {
        var ref :| ref in rest;
        rest := rest - {ref};
        if |keys[ref]| > max { return true; }
      }
      found := false;
    }

    /** Captures the named collections one by one. */
    method CaptureAll(adapter: InMemoryAdapter, refs: set<CollectionRef>) returns (error: Option<Status>)
      requires Now() == Sim(map[], map[]) && Honest(adapter.make)
      modifies this
      ensures if forall ref :: ref in refs ==> TargetAvailable(adapter.availability, ref.target)
              then error.None? && Now() == Initial(adapter.store.entries, refs)
              else error == Some(TargetUnavailable)
    {
      hide Initial, Lookup, TargetAvailable;
      ghost var store := adapter.store.entries;
      var rest := refs;
      InitialEmpty(store);
      assert refs - rest == {};
      while rest != {}
        invariant rest <= refs && adapter.store.entries == store
        invariant forall ref :: ref in refs - rest ==> TargetAvailable(adapter.availability, ref.target)
        invariant Now() == Initial(store, refs - rest)
        decreases |rest|
      {
        var ref :| ref in rest;
        ghost var done := refs - rest;
        rest := rest - {ref};
        var captured := adapter.CaptureUnlocked(adapter.store, ref);
        if captured.None? { return Some(TargetUnavailable); }
        InsertKeys(ref, captured.value.properties.Keys);
        present := present[ref := captured.value.present];
        assert refs - rest == done + {ref};
        InitialStep(store, done, ref);
      }
      assert refs - rest == refs;
      error := None;
    }
  }

  /** A snapshot shows the properties and the existence it was made from. */
  ghost predicate Honest(make: SnapshotMaker) {
    forall ref, properties, present ::
      make(ref, properties, present).properties == properties && make(ref, properties, present).present == present
  }

  lemma LibrarySnapshotsAreHonest()
    ensures Honest(Revision.SnapshotOf)
  {
    hide Revision.RevisionOf, Revision.ByteCount, Ordering.SortedKeys;
  }

  /** The state after a simulated operation; one that cannot be applied has
      changed nothing. */
  ghost predicate Stepped(before: Sim, op: Operation, applied: bool, after: Sim) {
    SimStep(before, op) == (if applied then Some(after) else None) && (!applied ==> after == before)
  }

  lemma InitialEmpty(store: Store)
    ensures Initial(store, {}) == Sim(map[], map[])
  {
  }

  lemma InitialKeys(store: Store, refs: set<CollectionRef>, ref: CollectionRef)
    requires ref !in refs
    ensures ref !in Initial(store, refs).keys
    ensures Initial(store, refs + {ref}).keys
         == if Lookup(store, ref) == map[] then Initial(store, refs).keys
            else Initial(store, refs).keys[ref := Lookup(store, ref).Keys]
  {
    hide Lookup;
  }

  lemma InitialStep(store: Store, refs: set<CollectionRef>, ref: CollectionRef)
    requires ref !in refs
    ensures Initial(store, refs + {ref})
         == Sim(if Lookup(store, ref).Keys == {} then Initial(store, refs).keys
                else Initial(store, refs).keys[ref := Initial(store, refs).Keys(ref) + Lookup(store, ref).Keys],
                Initial(store, refs).present[ref := ref in store])
  {
    InitialKeys(store, refs, ref);
    assert Initial(store, refs + {ref}).present == Initial(store, refs).present[ref := ref in store];
    hide Initial, Lookup;
    var p := Lookup(store, ref);
    assert p == map[] <==> p.Keys == {};
    assert {} + p.Keys == p.Keys;
  }

  /** All collections of an operation, which names at most two. */
  function Ends(refs: seq<CollectionRef>): set<CollectionRef>
    requires refs != []
  {
    {refs[0], refs[|refs| - 1]}
  }

  function NamedCollections(ops: seq<Operation>): (refs: set<CollectionRef>)
    ensures refs == CollectionsOf(ops)
  {
    if ops == [] then {}
    else
      CollectionsAppended(ops);
      NamedCollections(ops[..|ops| - 1]) + Ends(OperationCollections(ops[|ops| - 1]))
  }

  lemma AtMostTwo(op: Operation)
    ensures 0 < |OperationCollections(op)| <= 2
  {
  }

  lemma CollectionsAppended(ops: seq<Operation>)
    requires ops != []
    ensures CollectionsOf(ops)
         == CollectionsOf(ops[..|ops| - 1]) + Ends(OperationCollections(ops[|ops| - 1]))
  {
    hide OperationCollections;
    var n := |ops| - 1;
    var last := OperationCollections(ops[n]);
    AtMostTwo(ops[n]);
    forall ref | ref in CollectionsOf(ops) ensures ref in CollectionsOf(ops[..n]) || ref in Ends(last) {
      var i, j :| 0 <= i < |ops| && 0 <= j < |OperationCollections(ops[i])|
                  && OperationCollections(ops[i])[j] == ref;
      if i < n { assert OperationCollections(ops[..n][i])[j] == ref; }
    }
    forall ref | ref in Ends(last) ensures ref in CollectionsOf(ops) {
      assert ref == OperationCollections(ops[n])[0] || ref == OperationCollections(ops[n])[|last| - 1];
    }
    forall ref | ref in CollectionsOf(ops[..n]) ensures ref in CollectionsOf(ops) {
      var i, j :| 0 <= i < n && 0 <= j < |OperationCollections(ops[..n][i])|
                  && OperationCollections(ops[..n][i])[j] == ref;
      assert OperationCollections(ops[i])[j] == ref;
    }
  }

  lemma ScanStep(sim: Sim, ops: seq<Operation>, i: nat, max: nat)
    requires i < |ops| && Scan(sim, ops[..i], max).AllFit? && SimAfter(sim, ops[..i]).Some?
    ensures SimAfter(sim, ops[..i + 1]) == SimStep(SimAfter(sim, ops[..i]).value, ops[i])
    ensures Scan(sim, ops[..i + 1], max)
         == if SimAfter(sim, ops[..i + 1]).None? then CannotApply(i)
            else if Exceeds(SimAfter(sim, ops[..i + 1]).value, max) then OverLimit(i)
            else AllFit
  {
    hide SimStep, Exceeds;
    assert ops[..i + 1][..i] == ops[..i];
  }

  /** Once the scan has stopped, the rest of the list does not matter. */
  lemma {:induction false} ScanStops(sim: Sim, ops: seq<Operation>, i: nat, max: nat)
    requires i <= |ops| && !Scan(sim, ops[..i], max).AllFit?
    ensures Scan(sim, ops, max) == Scan(sim, ops[..i], max)
    decreases |ops|
  {
    hide SimAfter, Exceeds;
    if i < |ops| {
      var shorter := ops[..|ops| - 1];
      assert shorter[..i] == ops[..i];
      ScanStops(sim, shorter, i, max);
    } else {
      assert ops[..i] == ops;
    }
  }

  /** Runs the operations on the simulation until one cannot be applied or takes a
      collection over the limit. */
  method ScanOperations(simulation: Simulation, ops: seq<Operation>, max: nat) returns (overLimit: bool)
    modifies simulation
    ensures overLimit <==> Scan(old(simulation.Now()), ops, max).OverLimit?
  {
    hide SimStep, SimAfter, Scan, Exceeds;
    ghost var start := simulation.Now();
    ScanStart(start, ops, max);
    for i := 0 to |ops|
      invariant Scan(start, ops[..i], max).AllFit? && SimAfter(start, ops[..i]) == Some(simulation.Now())
    {
      ScanStep(start, ops, i, max);
      var canApply := simulation.Step(ops[i]);
      if !canApply {
        ScanStops(start, ops, i + 1, max);
        return false;
      }
      var exceeds := simulation.AnyExceeds(max);
      if exceeds {
        ScanStops(start, ops, i + 1, max);
        return true;
      }
    }
    assert ops[..|ops|] == ops;
    overLimit := false;
  }

  lemma ScanStart(sim: Sim, ops: seq<Operation>, max: nat)
    ensures Scan(sim, ops[..0], max).AllFit? && SimAfter(sim, ops[..0]) == Some(sim)
  {
  }

  /** The property-count check of the service. */
  method ValidatePropertyLimits(adapter: InMemoryAdapter, ops: seq<Operation>, max: nat) returns (error: Option<Status>)
    requires Honest(adapter.make)
    ensures error == LimitError(adapter.availability, adapter.store.entries, ops, max)
  {
    hide Scan, Initial, TargetAvailable, Honest;
    var refs := NamedCollections(ops);
    hide CollectionsOf, NamedCollections;
    var simulation := new Simulation();
    error := simulation.CaptureAll(adapter, refs);
    if error.None? {
      var overLimit := ScanOperations(simulation, ops, max);
      if overLimit { error := Some(InvalidValue); }
    }
  }
}
