/** Where stored values come from: no run invents, alters or mixes up values. */
module Provenance {
  import opened Types
  import opened Store
  import opened StoreLaws
  import opened OperationLaws
  import opened Protocol
  import History
  import Safety
  import Validation

  /** The store holds the value somewhere. */
  ghost predicate Holds(store: Store, v: Value) {
    exists ref, key :: PropertyAt(store, ref, key) == Some(v)
  }

  /** The operation brings the value along. */
  predicate Brings(op: Operation, v: Value) {
    exists k :: k in Validation.Payload(op) && Validation.Payload(op)[k] == v
  }

  /** What is held after an operation was held before or came with it. */
  lemma StepProvenance(store: Store, op: Operation, v: Value)
    requires Perform(store, op).Done? && Holds(Perform(store, op).store, v)
    ensures Holds(store, v) || Brings(op, v)
  {
    var ref, key :| PropertyAt(Perform(store, op).store, ref, key) == Some(v);
    hide Perform, PropertyAt;
    match op
    case SetProperty(_, k, value, _) =>
      SetPropertyMeans(store, op, ref, key);
      assert Validation.Payload(op)[k] == value;
    case SetMany(_, values, _) =>
      SetManyMeans(store, op, ref, key);
      assert key in values ==> key in Validation.Payload(op) && Validation.Payload(op)[key] == values[key];
    case RemoveProperty(_, _, _, _) => RemovePropertyMeans(store, op, ref, key);
    case RemoveMany(_, _, _, _) => RemoveManyMeans(store, op, ref, key);
    case ClearCollection(_, _, _) => ClearMeans(store, op, ref, key);
    case RenameCollection(_, _, _, _, _, _) => RenameProvenance(store, op, ref, key, v);
    case TransferProperty(_, _, _, _, _, _, _, _) => TransferPropertyMeans(store, op, ref, key);
    case TransferCollection(_, _, _, _, _, _) => CollectionProvenance(store, op, ref, key, v);
    case ImportCollection(_, properties, _, _) =>
      ImportMeans(store, op, ref, key);
      assert key in properties ==> key in Validation.Payload(op) && Validation.Payload(op)[key] == properties[key];
  }

  lemma CollectionProvenance(store: Store, op: Operation, ref: CollectionRef, key: string, v: Value)
    requires op.TransferCollection? && Perform(store, op).Done?
    requires PropertyAt(Perform(store, op).store, ref, key) == Some(v)
    ensures Holds(store, v)
  {
    TransferCollectionMeans(store, op, ref, key);
    assert PropertyAt(store, op.source, key) == Some(v) || PropertyAt(store, ref, key) == Some(v) by { hide Perform; }
  }

  lemma RenameProvenance(store: Store, op: Operation, ref: CollectionRef, key: string, v: Value)
    requires op.RenameCollection? && Perform(store, op).Done?
    requires PropertyAt(Perform(store, op).store, ref, key) == Some(v)
    ensures Holds(store, v)
  {
    RenameMeans(store, op, ref, key);
    var source := CollectionRef(op.target, op.from);
    assert PropertyAt(store, source, key) == Some(v) || PropertyAt(store, ref, key) == Some(v);
  }

  lemma {:induction false} FoldProvenance(store: Store, ops: seq<Operation>, v: Value)
    requires PerformAll(store, ops).Done? && Holds(PerformAll(store, ops).store, v)
    ensures Holds(store, v) || exists i :: 0 <= i < |ops| && Brings(ops[i], v)
  {
    hide Perform, Holds, Brings;
    if ops != [] {
      var n := |ops| - 1;
      var front := PerformAll(store, ops[..n]);
      StepProvenance(front.store, ops[n], v);
      if Holds(front.store, v) { FoldProvenance(store, ops[..n], v); }
    }
  }

  /** In every run, each stored value was in the store at the start or came, unchanged,
      with an operation of the history, and so from a caller who may name the collection
      it was written to. */
  lemma {:induction false} ValuesComeFromCallers(
    env: Env, start: Store, availability: Availability, actions: seq<Action>, v: Value)
    requires Safety.StoreOk(env, start) && Holds(Run(env, Start(start, availability), actions).store, v)
    ensures Holds(start, v)
         || exists i :: 0 <= i < |Run(env, Start(start, availability), actions).history|
                        && Brings(Run(env, Start(start, availability), actions).history[i].op, v)
  {
    History.HistoryExplainsStore(env, start, availability, actions);
    hide Run, Start, PerformAll, Holds, Brings, Safety.StoreOk;
    var history := Run(env, Start(start, availability), actions).history;
    FoldProvenance(start, History.OpsOf(history), v);
    if !Holds(start, v) {
      var i :| 0 <= i < |history| && Brings(History.OpsOf(history)[i], v);
      assert Brings(history[i].op, v);
    }
  }
}
