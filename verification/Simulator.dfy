/** The preflight simulator: it runs operations on key sets and existence bits
    only, and it is exact. */
module Simulator {
  import opened Types
  import opened Store
  import opened StoreLaws
  import Validation

  /** The two maps of the simulation.  Reading a missing entry gives the default,
      which is what `operator[]` inserts. */
  datatype Sim = Sim(keys: map<CollectionRef, set<string>>, present: map<CollectionRef, bool>)
  {
    function Keys(ref: CollectionRef): set<string> {
      if ref in keys then keys[ref] else {}
    }

    predicate Present(ref: CollectionRef) {
      ref in present && present[ref]
    }

    function With(ref: CollectionRef, k: set<string>, bit: bool): Sim {
      Sim(keys[ref := k], present[ref := bit])
    }
  }

  /** The reduced state of a store. */
  function Initial(store: Store, refs: set<CollectionRef>): Sim {
    Sim(map ref | ref in refs && Lookup(store, ref) != map[] :: Lookup(store, ref).Keys,
        map ref | ref in refs :: ref in store)
  }

  function SimDeposit(sim: Sim, destination: CollectionRef, incoming: set<string>, policy: ImportPolicy): Option<Sim> {
    if policy.FailIfDestinationExists? && sim.Present(destination) then None
    else
      var kept := if policy.Merge? && sim.Present(destination) then sim.Keys(destination) else {};
      Some(sim.With(destination, kept + incoming, true))
  }

  /** One simulated operation, or `None` when it cannot be applied. */
  function SimStep(sim: Sim, op: Operation): Option<Sim> {
    match op
    case SetProperty(ref, key, _, _) => Some(sim.With(ref, sim.Keys(ref) + {key}, true))
    case SetMany(ref, values, _) => Some(sim.With(ref, sim.Keys(ref) + values.Keys, true))
    case RemoveProperty(ref, key, _, requireExisting) =>
      if requireExisting && key !in sim.Keys(ref) then None
      else Some(Sim(sim.keys[ref := sim.Keys(ref) - {key}], sim.present))
    case RemoveMany(ref, keys, _, requireAllExisting) =>
      if requireAllExisting && !(KeySet(keys) <= sim.Keys(ref)) then None
      else Some(Sim(sim.keys[ref := sim.Keys(ref) - KeySet(keys)], sim.present))
    case ClearCollection(ref, _, removeCollection) => Some(sim.With(ref, {}, !removeCollection))
    case RenameCollection(target, from, to, _, policy, _) =>
      var source, destination := CollectionRef(target, from), CollectionRef(target, to);
      if !sim.Present(source) then None
      else
        var deposited := SimDeposit(sim, destination, sim.Keys(source), policy);
        if deposited.None? then None else Some(deposited.value.With(source, {}, false))
    case TransferProperty(source, sourceKey, destination, destinationKey, _, _, removeSource, overwrite) =>
      if sourceKey !in sim.Keys(source) then None
      else if destinationKey in sim.Keys(destination) && !overwrite then None
      else
        var written := sim.With(destination, sim.Keys(destination) + {destinationKey}, true);
        Some(if removeSource then Sim(written.keys[source := written.Keys(source) - {sourceKey}], written.present)
             else written)
    case TransferCollection(source, destination, _, _, policy, removeSource) =>
      if !sim.Present(source) then None
      else
        var deposited := SimDeposit(sim, destination, sim.Keys(source), policy);
        if deposited.None? then None
        else if removeSource then Some(deposited.value.With(source, {}, false))
        else deposited
    case ImportCollection(destination, properties, _, policy) =>
      SimDeposit(sim, destination, properties.Keys, policy)
  }

  /** The simulation of a list of operations, while all of them can be applied. */
  function SimAfter(sim: Sim, ops: seq<Operation>): Option<Sim> {
    if ops == [] then Some(sim)
    else
      var n := |ops| - 1;
      var front := SimAfter(sim, ops[..n]);
      if front.None? then None else SimStep(front.value, ops[n])
  }

  /** The simulation knows, about the given collections, exactly which keys they
      hold and whether they exist. */
  predicate MatchesAt(sim: Sim, store: Store, ref: CollectionRef) {
    sim.Keys(ref) == Lookup(store, ref).Keys && (sim.Present(ref) <==> ref in store)
  }

  predicate Matches(sim: Sim, store: Store, refs: set<CollectionRef>) {
    sim.keys.Keys <= refs && forall ref :: ref in refs ==> MatchesAt(sim, store, ref)
  }

  lemma InitialMatches(store: Store, refs: set<CollectionRef>)
    ensures Matches(Initial(store, refs), store, refs)
  {
  }

  /** The simulated and the real step agree about one outcome. */
  predicate StepAgrees(stepped: Option<Sim>, performed: Outcome, refs: set<CollectionRef>) {
    (stepped.Some? <==> performed.Done?) && (stepped.Some? ==> Matches(stepped.value, performed.store, refs))
  }

  lemma WithMatches(
    sim: Sim, store: Store, refs: set<CollectionRef>, ref: CollectionRef, p: Properties, k: set<string>)
    requires Matches(sim, store, refs) && ref in refs && k == p.Keys
    ensures Matches(sim.With(ref, k, true), store[ref := p], refs)
  {
  }

  lemma WithoutMatches(sim: Sim, store: Store, refs: set<CollectionRef>, ref: CollectionRef)
    requires Matches(sim, store, refs) && ref in refs
    ensures Matches(sim.With(ref, {}, false), store - {ref}, refs)
  {
  }

  /** Removing keys from a collection that may or may not exist. */
  lemma ShrinkMatches(sim: Sim, store: Store, refs: set<CollectionRef>, ref: CollectionRef, gone: set<string>)
    requires Matches(sim, store, refs) && ref in refs
    ensures Matches(Sim(sim.keys[ref := sim.Keys(ref) - gone], sim.present),
                    if ref in store then store[ref := store[ref] - gone] else store, refs)
  {
  }

  lemma DepositAgrees(
    sim: Sim, store: Store, refs: set<CollectionRef>, ref: CollectionRef, p: Properties, policy: ImportPolicy)
    requires Matches(sim, store, refs) && ref in refs
    ensures StepAgrees(SimDeposit(sim, ref, p.Keys, policy), Deposit(store, ref, p, policy), refs)
  {
    assert MatchesAt(sim, store, ref);
    if ref in store { WithMatches(sim, store, refs, ref, store[ref] + p, sim.Keys(ref) + p.Keys); }
    WithMatches(sim, store, refs, ref, p, {} + p.Keys);
    hide Matches;
  }

  lemma MoveAgrees(sim: Sim, store: Store, refs: set<CollectionRef>, op: Operation)
    requires Matches(sim, store, refs) && (op.RenameCollection? || op.TransferCollection?)
    requires (forall ref :: Names(op, ref) ==> ref in refs) && !Validation.SelfMove(op)
    ensures StepAgrees(SimStep(sim, op), Perform(store, op), refs)
  {
    var source, destination := OperationCollections(op)[0], OperationCollections(op)[1];
    assert Names(op, source) && Names(op, destination);
    assert MatchesAt(sim, store, source);
    if source in store {
      DepositAgrees(sim, store, refs, destination, store[source], op.policy);
      var simulated := SimDeposit(sim, destination, sim.Keys(source), op.policy);
      var stored := Deposit(store, destination, store[source], op.policy);
      if stored.Done? {
        WithoutMatches(simulated.value, stored.store, refs, source);
      }
      hide Matches;
    }
  }

  lemma TransferAgrees(sim: Sim, store: Store, refs: set<CollectionRef>, op: Operation)
    requires Matches(sim, store, refs) && op.TransferProperty?
    requires op.source in refs && op.destination in refs
    ensures StepAgrees(SimStep(sim, op), Perform(store, op), refs)
  {
    assert MatchesAt(sim, store, op.source) && MatchesAt(sim, store, op.destination);
    if op.sourceKey in sim.Keys(op.source) {
      var value := store[op.source][op.sourceKey];
      var p := Lookup(store, op.destination)[op.destinationKey := value];
      WithMatches(sim, store, refs, op.destination, p, sim.Keys(op.destination) + {op.destinationKey});
      var written := sim.With(op.destination, sim.Keys(op.destination) + {op.destinationKey}, true);
      ShrinkMatches(written, store[op.destination := p], refs, op.source, {op.sourceKey});
      hide Matches;
    }
  }

  lemma RemoveAgrees(sim: Sim, store: Store, refs: set<CollectionRef>, op: Operation)
    requires Matches(sim, store, refs) && (op.RemoveProperty? || op.RemoveMany?) && op.ref in refs
    ensures StepAgrees(SimStep(sim, op), Perform(store, op), refs)
  {
    assert MatchesAt(sim, store, op.ref);
    var gone := if op.RemoveProperty? then {op.key} else KeySet(op.keys);
    ShrinkMatches(sim, store, refs, op.ref, gone);
    hide Matches;
    if op.RemoveProperty? && op.ref in store && op.key !in store[op.ref] {
      assert store[op.ref] - gone == store[op.ref];
      assert store[op.ref := store[op.ref]] == store;
    }
  }

  /** One step of the simulation is exact for every operation but the move of a
      collection onto itself. */
  lemma StepExact(sim: Sim, store: Store, refs: set<CollectionRef>, op: Operation)
    requires Matches(sim, store, refs)
    requires (forall ref :: Names(op, ref) ==> ref in refs) && !Validation.SelfMove(op)
    ensures StepAgrees(SimStep(sim, op), Perform(store, op), refs)
  {
    var first, last := OperationCollections(op)[0], OperationCollections(op)[|OperationCollections(op)| - 1];
    assert Names(op, first) && Names(op, last);
    assert MatchesAt(sim, store, first);
    match op
    case SetProperty(ref, key, value, _) =>
      WithMatches(sim, store, refs, ref, Lookup(store, ref)[key := value], sim.Keys(ref) + {key});
    case SetMany(ref, values, _) =>
      WithMatches(sim, store, refs, ref, Lookup(store, ref) + values, sim.Keys(ref) + values.Keys);
    case RemoveProperty(_, _, _, _) => RemoveAgrees(sim, store, refs, op);
    case RemoveMany(_, _, _, _) => RemoveAgrees(sim, store, refs, op);
    case ClearCollection(ref, _, _) =>
      WithoutMatches(sim, store, refs, ref);
      WithMatches(sim, store, refs, ref, map[], {});
    case RenameCollection(_, _, _, _, _, _) => MoveAgrees(sim, store, refs, op);
    case TransferProperty(_, _, _, _, _, _, _, _) => TransferAgrees(sim, store, refs, op);
    case TransferCollection(_, _, _, _, _, _) => MoveAgrees(sim, store, refs, op);
    case ImportCollection(destination, properties, _, policy) =>
      DepositAgrees(sim, store, refs, destination, properties, policy);
  }

  /** The simulator and the adapter really differ on a self-move: the adapter
      keeps the collection, the simulation loses it. */
  lemma SelfMoveDiffers(ref: CollectionRef, p: Properties)
    requires p != map[]
    ensures var op := TransferCollection(ref, ref, None, None, Replace, true);
            var store: Store := map[ref := p];
            Perform(store, op) == Done(store)
            && SimStep(Initial(store, {ref}), op).Some?
            && !Matches(SimStep(Initial(store, {ref}), op).value, store, {ref})
  {
    var op := TransferCollection(ref, ref, None, None, Replace, true);
    var store: Store := map[ref := p];
    assert store[ref := store[ref]] == store;
    var stepped := SimStep(Initial(store, {ref}), op);
    assert !MatchesAt(stepped.value, store, ref);
  }

  /** On a move of a collection onto itself the two agree exactly when both refuse
      it; the service rejects all such moves beforehand. */
  lemma SelfMoveAgreesIff(sim: Sim, store: Store, refs: set<CollectionRef>, op: Operation)
    requires Matches(sim, store, refs) && Validation.SelfMove(op) && op.source in refs
    ensures StepAgrees(SimStep(sim, op), Perform(store, op), refs) <==>
              op.source !in store || op.policy.FailIfDestinationExists?
  {
    assert MatchesAt(sim, store, op.source);
    if op.source in store && !op.policy.FailIfDestinationExists? {
      assert !MatchesAt(SimStep(sim, op).value, Perform(store, op).store, op.source);
    }
  }

  predicate NoSelfMoves(ops: seq<Operation>) {
    forall i :: 0 <= i < |ops| ==> !Validation.SelfMove(ops[i])
  }

  ghost predicate NamedIn(ops: seq<Operation>, refs: set<CollectionRef>) {
    forall i, ref :: 0 <= i < |ops| && Names(ops[i], ref) ==> ref in refs
  }

  /** After every list of operations, the simulated key sets and existence bits
      are those of the store the fold reaches, and the simulation stops exactly when
      the fold is refused. */
  lemma {:induction false} SimulatesFold(store: Store, refs: set<CollectionRef>, ops: seq<Operation>)
    requires NamedIn(ops, refs) && NoSelfMoves(ops)
    ensures StepAgrees(SimAfter(Initial(store, refs), ops), PerformAll(store, ops), refs)
  {
    hide SimStep, Perform, Initial, Validation.SelfMove, Names;
    if ops == [] {
      InitialMatches(store, refs);
    } else {
      var n := |ops| - 1;
      SimulatesFold(store, refs, ops[..n]);
      var front, stored := SimAfter(Initial(store, refs), ops[..n]), PerformAll(store, ops[..n]);
      if stored.Done? {
        StepExact(front.value, stored.store, refs, ops[n]);
      }
    }
  }

  /** After every list of operations, the simulated key sets and existence bits are
      those of the store a forced run of the adapter reaches, and the simulation
      stops exactly when the adapter refuses. */
  lemma SimulationExact(
    make: SnapshotMaker, availability: Availability, store: Store, refs: set<CollectionRef>, ops: seq<Operation>)
    requires NamedIn(ops, refs) && NoSelfMoves(ops) && AllAvailable(availability, ops) && NoClashes(ops)
    ensures var sim, run := SimAfter(Initial(store, refs), ops), RunAll(make, availability, store, ops, true);
            && (sim.None? <==> run.failed)
            && (sim.Some? ==> Matches(sim.value, run.candidate, refs))
  {
    hide NamedIn, NoSelfMoves, AllAvailable, NoClashes, PerformAll, RunAll, SimAfter, Initial, Matches;
    SimulatesFold(store, refs, ops);
    ForcedRunIsFold(make, availability, store, ops);
  }

  // The verdict

  /** What the scan finds first: an operation that cannot be applied, one after
      which a collection is over the limit, or neither. */
  datatype Verdict = AllFit | CannotApply(at: nat) | OverLimit(at: nat)

  predicate Exceeds(sim: Sim, max: nat) {
    exists ref :: ref in sim.keys && |sim.keys[ref]| > max
  }

  function Scan(sim: Sim, ops: seq<Operation>, max: nat): Verdict {
    if ops == [] then AllFit
    else
      var n := |ops| - 1;
      var front := Scan(sim, ops[..n], max);
      if front != AllFit then front
      else
        var after := SimAfter(sim, ops);
        if after.None? then CannotApply(n)
        else if Exceeds(after.value, max) then OverLimit(n)
        else AllFit
  }

  /** Some collection holds more than `max` keys. */
  predicate TooBig(store: Store, refs: set<CollectionRef>, max: nat) {
    exists ref :: ref in refs && |Lookup(store, ref)| > max
  }

  /** The first `k` operations can be applied one after the other. */
  predicate Applies(store: Store, ops: seq<Operation>, k: nat)
    requires k <= |ops|
  {
    PerformAll(store, ops[..k]).Done?
  }

  /** ... and after each of them no named collection is over the limit. */
  predicate FitsUpTo(store: Store, refs: set<CollectionRef>, ops: seq<Operation>, k: nat, max: nat)
    requires k <= |ops|
  {
    forall j :: 1 <= j <= k ==> Applies(store, ops, j) && !TooBig(PerformAll(store, ops[..j]).store, refs, max)
  }

  lemma ExceedsIffTooBig(sim: Sim, store: Store, refs: set<CollectionRef>, max: nat)
    requires Matches(sim, store, refs)
    ensures Exceeds(sim, max) <==> TooBig(store, refs, max)
  {
    forall ref | ref in refs ensures |sim.Keys(ref)| == |Lookup(store, ref)| {
      assert MatchesAt(sim, store, ref);
      assert |Lookup(store, ref).Keys| == |Lookup(store, ref)|;
    }
    if Exceeds(sim, max) {
      var ref :| ref in sim.keys && |sim.keys[ref]| > max;
      assert sim.Keys(ref) == sim.keys[ref];
    }
    if TooBig(store, refs, max) {
      var ref :| ref in refs && |Lookup(store, ref)| > max;
      assert |sim.Keys(ref)| > max;
      assert ref in sim.keys;
    }
  }

  /** The scan finds the first operation the fold refuses, or the first after which a
      named collection is over the limit, whichever comes first. */
  lemma {:induction false} ScanOfFold(store: Store, refs: set<CollectionRef>, ops: seq<Operation>, max: nat)
    requires NamedIn(ops, refs) && NoSelfMoves(ops)
    ensures match Scan(Initial(store, refs), ops, max)
            case AllFit => FitsUpTo(store, refs, ops, |ops|, max)
            case CannotApply(k) => k < |ops| && FitsUpTo(store, refs, ops, k, max) && !Applies(store, ops, k + 1)
            case OverLimit(k) => k < |ops| && FitsUpTo(store, refs, ops, k, max) && Applies(store, ops, k + 1)
                                 && TooBig(PerformAll(store, ops[..k + 1]).store, refs, max)
  {
    hide SimAfter, PerformAll, Initial, Exceeds, TooBig, Matches, Validation.SelfMove, Names;
    if ops != [] {
      var n := |ops| - 1;
      ScanOfFold(store, refs, ops[..n], max);
      forall j | 0 <= j <= n ensures ops[..n][..j] == ops[..j] {}
      assert ops[..n + 1] == ops;
      SimulatesFold(store, refs, ops);
      var after := SimAfter(Initial(store, refs), ops);
      if after.Some? { ExceedsIffTooBig(after.value, PerformAll(store, ops).store, refs, max); }
    }
  }

  // The verdict, against the adapter

  /** A forced run of the adapter applies the first `k` operations. */
  predicate Runs(make: SnapshotMaker, availability: Availability, store: Store, ops: seq<Operation>, k: nat)
    requires k <= |ops|
  {
    !RunAll(make, availability, store, ops[..k], true).failed
  }

  /** ... and after each of them no named collection is over the limit. */
  predicate RunsAndFits(
    make: SnapshotMaker, availability: Availability, store: Store, refs: set<CollectionRef>, ops: seq<Operation>,
    k: nat, max: nat)
    requires k <= |ops|
  {
    forall j :: 1 <= j <= k ==>
      && Runs(make, availability, store, ops, j)
      && !TooBig(RunAll(make, availability, store, ops[..j], true).candidate, refs, max)
  }

  lemma PrefixRuns(make: SnapshotMaker, availability: Availability, store: Store, ops: seq<Operation>, k: nat)
    requires AllAvailable(availability, ops) && NoClashes(ops) && k <= |ops|
    ensures Runs(make, availability, store, ops, k) <==> Applies(store, ops, k)
    ensures Applies(store, ops, k) ==>
              RunAll(make, availability, store, ops[..k], true).candidate == PerformAll(store, ops[..k]).store
  {
    hide Names, TargetAvailable, PerformAll, RunAll;
    ForcedRunIsFold(make, availability, store, ops[..k]);
  }

  lemma PrefixFits(
    make: SnapshotMaker, availability: Availability, store: Store, refs: set<CollectionRef>, ops: seq<Operation>,
    k: nat, max: nat)
    requires AllAvailable(availability, ops) && NoClashes(ops) && k <= |ops|
    ensures RunsAndFits(make, availability, store, refs, ops, k, max) <==> FitsUpTo(store, refs, ops, k, max)
  {
    hide AllAvailable, NoClashes, PerformAll, RunAll, TooBig, Runs;
    forall j | 1 <= j <= k
      ensures Runs(make, availability, store, ops, j) <==> Applies(store, ops, j)
      ensures Applies(store, ops, j) ==>
                RunAll(make, availability, store, ops[..j], true).candidate == PerformAll(store, ops[..j]).store
    {
      PrefixRuns(make, availability, store, ops, j);
    }
  }

  /** The scan finds the first operation that a forced run of the adapter refuses, or
      the first after which it leaves a named collection over the limit, whichever
      comes first. */
  lemma ScanExact(
    make: SnapshotMaker, availability: Availability, store: Store, refs: set<CollectionRef>, ops: seq<Operation>,
    max: nat)
    requires NamedIn(ops, refs) && NoSelfMoves(ops) && AllAvailable(availability, ops) && NoClashes(ops)
    ensures var verdict := Scan(Initial(store, refs), ops, max);
            && (verdict.AllFit? ==> RunsAndFits(make, availability, store, refs, ops, |ops|, max))
            && (!verdict.AllFit? ==>
                  && verdict.at < |ops| && RunsAndFits(make, availability, store, refs, ops, verdict.at, max)
                  && (verdict.CannotApply? <==> !Runs(make, availability, store, ops, verdict.at + 1))
                  && (verdict.OverLimit? ==>
                        TooBig(RunAll(make, availability, store, ops[..verdict.at + 1], true).candidate, refs, max)))
  {
    hide NamedIn, NoSelfMoves, AllAvailable, NoClashes, PerformAll, RunAll, TooBig, Runs, Applies, RunsAndFits,
         FitsUpTo, Scan, Initial;
    ScanOfFold(store, refs, ops, max);
    var verdict := Scan(Initial(store, refs), ops, max);
    if verdict.AllFit? {
      PrefixFits(make, availability, store, refs, ops, |ops|, max);
    } else {
      PrefixFits(make, availability, store, refs, ops, verdict.at, max);
      PrefixRuns(make, availability, store, ops, verdict.at + 1);
    }
  }
}
