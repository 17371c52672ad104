/** What each operation does to every single property of every collection, and when
    it is refused. */
module OperationLaws {
  import opened Types
  import opened Store

  /** The property under a key of a collection, if there is one. */
  function PropertyAt(store: Store, ref: CollectionRef, key: string): Option<Value> {
    if key in Lookup(store, ref) then Some(Lookup(store, ref)[key]) else None
  }

  lemma SetPropertyMeans(store: Store, op: Operation, ref: CollectionRef, key: string)
    requires op.SetProperty?
    ensures Perform(store, op).Done?
    ensures var after := Perform(store, op).store;
            && (ref in after <==> ref in store || ref == op.ref)
            && PropertyAt(after, ref, key)
               == if ref == op.ref && key == op.key then Some(op.value) else PropertyAt(store, ref, key)
  {
  }

  lemma SetManyMeans(store: Store, op: Operation, ref: CollectionRef, key: string)
    requires op.SetMany?
    ensures Perform(store, op).Done?
    ensures var after := Perform(store, op).store;
            && (ref in after <==> ref in store || ref == op.ref)
            && PropertyAt(after, ref, key)
               == if ref == op.ref && key in op.values then Some(op.values[key]) else PropertyAt(store, ref, key)
  {
  }

  /** A strict removal of a missing property is refused; a lenient one changes nothing. */
  lemma RemovePropertyMeans(store: Store, op: Operation, ref: CollectionRef, key: string)
    requires op.RemoveProperty?
    ensures Perform(store, op).Refused? <==> op.requireExisting && PropertyAt(store, op.ref, op.key).None?
    ensures Perform(store, op).Refused? ==> Perform(store, op).status == NotFound
    ensures Perform(store, op).Done? ==>
              var after := Perform(store, op).store;
              && (ref in after <==> ref in store)
              && PropertyAt(after, ref, key)
                 == if ref == op.ref && key == op.key then None else PropertyAt(store, ref, key)
  {
  }

  lemma RemoveManyMeans(store: Store, op: Operation, ref: CollectionRef, key: string)
    requires op.RemoveMany?
    ensures Perform(store, op).Refused? <==>
              op.requireAllExisting && exists k :: k in op.keys && PropertyAt(store, op.ref, k).None?
    ensures Perform(store, op).Refused? ==> Perform(store, op).status == NotFound
    ensures Perform(store, op).Done? ==>
              var after := Perform(store, op).store;
              && (ref in after <==> ref in store)
              && PropertyAt(after, ref, key)
                 == if ref == op.ref && key in op.keys then None else PropertyAt(store, ref, key)
  {
    assert KeySet(op.keys) <= Lookup(store, op.ref).Keys <==>
             forall k :: k in op.keys ==> PropertyAt(store, op.ref, k).Some? by {
      forall k | k in op.keys ensures k in KeySet(op.keys) {}
    }
  }

  lemma ClearMeans(store: Store, op: Operation, ref: CollectionRef, key: string)
    requires op.ClearCollection?
    ensures Perform(store, op).Done?
    ensures var after := Perform(store, op).store;
            && (ref in after <==> if ref == op.ref then !op.removeCollection else ref in store)
            && PropertyAt(after, ref, key) == if ref == op.ref then None else PropertyAt(store, ref, key)
  {
  }

  /** What a collection holds once properties arrive in it: the arriving value wins, and
      an old one stays only under the merge policy. */
  function Arrived(store: Store, ref: CollectionRef, incoming: Properties, policy: ImportPolicy, key: string)
    : Option<Value>
  {
    if key in incoming then Some(incoming[key]) else if policy.Merge? then PropertyAt(store, ref, key) else None
  }

  lemma ImportMeans(store: Store, op: Operation, ref: CollectionRef, key: string)
    requires op.ImportCollection?
    ensures Perform(store, op).Refused? <==> op.policy.FailIfDestinationExists? && op.destination in store
    ensures Perform(store, op).Refused? ==> Perform(store, op).status == Conflict
    ensures Perform(store, op).Done? ==>
              var after := Perform(store, op).store;
              && (ref in after <==> ref in store || ref == op.destination)
              && PropertyAt(after, ref, key)
                 == if ref == op.destination then Arrived(store, ref, op.properties, op.policy, key)
                    else PropertyAt(store, ref, key)
  {
  }

  /** A rename between distinct names, which services demand, carries the whole
      collection over and leaves nothing behind. */
  lemma RenameMeans(store: Store, op: Operation, ref: CollectionRef, key: string)
    requires op.RenameCollection?
    ensures var source, destination := CollectionRef(op.target, op.from), CollectionRef(op.target, op.to);
            && (Perform(store, op) == Refused(NotFound) <==> source !in store)
            && (Perform(store, op) == Refused(Conflict) <==>
                  source in store && op.policy.FailIfDestinationExists? && destination in store)
            && (Perform(store, op).Done? && op.from != op.to ==>
                  var after := Perform(store, op).store;
                  && (ref in after <==> ref != source && (ref in store || ref == destination))
                  && PropertyAt(after, ref, key)
                     == if ref == source then None
                        else if ref == destination then Arrived(store, ref, store[source], op.policy, key)
                        else PropertyAt(store, ref, key))
  {
  }

  /** An applied transfer writes the source's value under the destination key, also over
      an older one, and takes it from the source when it is a move onto another place;
      every other property of every collection stays. */
  lemma TransferPropertyMeans(store: Store, op: Operation, ref: CollectionRef, key: string)
    requires op.TransferProperty?
    ensures Perform(store, op) == Refused(NotFound) <==> PropertyAt(store, op.source, op.sourceKey).None?
    ensures Perform(store, op) == Refused(Conflict) <==>
              && PropertyAt(store, op.source, op.sourceKey).Some?
              && !op.overwrite && PropertyAt(store, op.destination, op.destinationKey).Some?
    ensures Perform(store, op).Done? ==>
              var after := Perform(store, op).store;
              && (ref in after <==> ref in store || ref == op.destination)
              && PropertyAt(after, ref, key)
                 == if op.removeSource && ref == op.source && key == op.sourceKey then None
                    else if ref == op.destination && key == op.destinationKey
                    then PropertyAt(store, op.source, op.sourceKey)
                    else PropertyAt(store, ref, key)
  {
  }

  /** A copied or moved collection: the source's values win at the destination, and a
      move leaves no source; a copy onto itself changes nothing. */
  lemma TransferCollectionMeans(store: Store, op: Operation, ref: CollectionRef, key: string)
    requires op.TransferCollection?
    ensures Perform(store, op) == Refused(NotFound) <==> op.source !in store
    ensures Perform(store, op) == Refused(Conflict) <==>
              op.source in store && op.policy.FailIfDestinationExists? && op.destination in store
    ensures Perform(store, op).Done? ==>
              var after := Perform(store, op).store;
              var moved := op.removeSource && op.source != op.destination;
              && (ref in after <==> (ref in store || ref == op.destination) && !(moved && ref == op.source))
              && PropertyAt(after, ref, key)
                 == if moved && ref == op.source then None
                    else if ref == op.destination then Arrived(store, ref, store[op.source], op.policy, key)
                    else PropertyAt(store, ref, key)
  {
  }

  /** Of two collections an operation names, the first is where it takes from and the
      second where it puts; it names one or two. */
  lemma SourceComesFirst(store: Store, op: Operation)
    requires Perform(store, op).Done? && !(op.RenameCollection? && op.from == op.to)
    ensures var refs := OperationCollections(op);
            && 1 <= |refs| <= 2
            && (|refs| == 2 ==> refs[0] in store && refs[1] in Perform(store, op).store)
            && (|refs| == 2 <==> op.RenameCollection? || op.TransferProperty? || op.TransferCollection?)
  {
  }
}
