/** The one expectation the library does not honour, at real inputs: a collection
    copied onto itself commits on another revision than its destination expectation. */
module UnreadGuards {
  import opened Types
  import opened Store
  import opened StoreLaws
  import opened Validation
  import AccessPolicy
  import Revision
  import Utf8

  /** A service accepts the copy of a collection onto itself with any destination
      expectation, and the adapter applies it. */
  lemma WrongGuardCommits(
    make: SnapshotMaker, availability: Availability, store: Store, service: Service, context: AccessContext,
    ref: CollectionRef, wrong: Word64)
    requires ValidateRef(service, context, ref).None? && service.capabilities.collectionCopyMove
    requires ref in store && TargetAvailable(availability, ref.target)
    requires SnapshotIn(make, store, ref).revision != wrong
    ensures var op := TransferCollection(ref, ref, None, Some(wrong), Replace, false);
            && ValidateOperation(service, context, op).None?
            && GivesGuard(op, ref, wrong)
            && ApplyTo(make, availability, store, op, false).result.Ok()
            && ApplyTo(make, availability, store, op, false).store == store
  {
    var op := TransferCollection(ref, ref, None, Some(wrong), Replace, false);
    assert store[ref := store[ref]] == store;
    assert Perform(store, op) == Done(store);
    assert Names(op, ref) && !ReadsEveryGuard(op);
    hide ApplyTo, Perform, ValidateRef, TargetAvailable, SnapshotIn;
    UnreadCopyApplies(make, availability, store, op, ref);
    AppliedMeans(make, availability, store, op, false, ApplyTo(make, availability, store, op, false),
                 Distinct(OperationCollections(op)), Perform(store, op));
  }

  const SERVICE: Service :=
    Service(ValidationLimits(100, 100, 100, 100, 100, 100), IN_MEMORY, AccessPolicy.DEFAULT_PREFIX)
  const ADMIN: AccessContext := AccessContext("", true)
  const WORLD: Target := Target(World, "w", "", "", None, NoSection, -1, "")

  lemma WorldCollectionAccepted(name: string)
    requires name == "a" || name == "b"
    ensures ValidateRef(SERVICE, ADMIN, CollectionRef(WORLD, name)).None?
  {
    assert name[0] != NUL && Utf8.HeadLength(name) == 1 && name[1..] == "";
    assert Utf8.Valid(name) && NUL !in name;
    hide Utf8.Valid;
  }

  /** With the library's own revisions: one of two empty collections is copied onto
      itself although its revision is not the expected 1. */
  lemma WrongGuardWitness()
    ensures exists name ::
              var ref := CollectionRef(WORLD, name);
              var store: Store := map[ref := map[]];
              var op := TransferCollection(ref, ref, None, Some(1), Replace, false);
              && ValidateOperation(SERVICE, ADMIN, op).None?
              && SnapshotIn(Revision.SnapshotOf, store, ref).revision != 1
              && ApplyTo(Revision.SnapshotOf, map[], store, op, false).result.Ok()
  {
    hide Revision.RevisionOf, ApplyTo, ValidateRef, ValidateOperation, Revision.ByteCount;
    var none: Properties := map[];
    Revision.NamesDifferingInOneByte(WORLD, "", 'a', 'b', "", true, none);
    assert "" + ['a'] + "" == "a" && "" + ['b'] + "" == "b";
    var name := if Revision.RevisionOf(CollectionRef(WORLD, "a"), true, none) != 1 then "a" else "b";
    var ref := CollectionRef(WORLD, name);
    var store: Store := map[ref := none];
    WorldCollectionAccepted(name);
    assert SnapshotIn(Revision.SnapshotOf, store, ref).revision == Revision.RevisionOf(ref, true, none);
    WrongGuardCommits(Revision.SnapshotOf, map[], store, SERVICE, ADMIN, ref, 1);
  }
}
