# Dynamic properties: verification model

The library keeps *dynamic properties*: named values grouped in collections, each attached to a
target (the world, a player, an entity, an item slot, a block). Plugins read and write them through
services. This project models that library in Dafny and proves what it is for.

- **The store and its transactions.** `Types`, `Store`, `Adapter`, `StoreLaws`, `OperationLaws`, `UnreadGuards`:
  nine operations that update a map of collections in place, revision guards, and transactions on a candidate
  copy. The in-place code is proved to compute the functions of `Store`; the laws are proved of those
  functions, down to every single property of every collection.
- **The preflight simulator.** `Simulator`, `Preflight`, `Commit`, `PreflightGuards`: key sets and existence
  bits only, and yet exact; no revision is read.
- **The commit protocol.** `Validation`, `ValidationLaws`, `Protocol`, `Safety`, `History`, `Provenance`,
  `AuditTrail`, `Progress`: a state machine in which any number of threads, with reentrant listeners and audit
  sinks, interleave step by step; theorems about all of its runs. `Services` is the service as imperative code
  on the adapter and the event bus (with the events of `ServiceEvents` and `EventLaws`), proved to take only
  steps of that machine and to be cancelled exactly as its listeners decide.
- **Documents.** `Utf8`, `JsonGrammar`, `JsonParse`, `JsonComplete`, `JsonSound`, `JsonReader`, `Codec`,
  `CodecLaws`, `DecodeLaws`, `ExportImport`, `Documents`: the UTF-8 validator, the JSON printer, the
  recursive-descent parser against the grammar of RFC 8259, and the round trip.
- **Around them.** `Revision`, `RevisionLaws` and `DescriptionLaws` (64-bit FNV revisions), `AccessPolicy`
  (plugin namespaces), `Events` (the event bus), `Registry` (the shared mutation mutexes), `Sha256`,
  `Sha256Laws`, `Sha256Constants` and `Sha256Example` (streaming SHA-256 against FIPS 180-4, with its published
  example), `Ordering`, `Decimal` and `Hexadecimal` (sorted keys and collections, integers as text).

Conventions. A C++ `std::string` is a Dafny `string` whose characters stand for bytes. A `double` is its
bit pattern. Exceptions and error returns are `Option`, `Outcome` or status values; message texts are not
modelled. The revision function is a parameter (`SnapshotMaker`) of the store and the protocol, so what is
proved there holds for any; `Revision.SnapshotOf` is the library's own. `NumberFormat` stands for number
printing and `strtod`; `Codec.Faithful` says what is needed of them: what is printed for a finite number is
a JSON number that reads back as itself.

## Where code and documentation differ

The model follows the code.

- `docs/TRANSACTIONS.md` says an expected revision is checked during preflight and again before commit. The
  preflight of the service compares no expectation with a revision; it compares the two expectations of a
  property transfer within one collection with each other, and rejects the request when they differ. A request
  that would pass without its expectations is rejected for them if and only if some operation clashes in that
  way (`PreflightGuards.RejectedForExpectationsIff`). Any other request with a stale expectation reaches the
  listeners, as in `PreflightGuards.StaleWitness`, and only the adapter refuses it
  (`PreflightGuards.StaleIsRefusedAtCommit`, `PreflightGuards.StaleNeverCommits`).
- `docs/SECURITY_AND_COLLECTIONS.md` shows a plugin's collection name ending in the logical name as given; the
  code normalizes the logical name as well. The two agree if and only if the logical name is normal and not
  empty (`AccessPolicy.DocumentedFormIff`); they differ for the name in `AccessPolicy.DocumentedFormWitness`.
- `docs/TRANSACTIONS.md` promises that expected revisions are checked. A copy or rename of a collection onto
  itself compares only its source expectation. An operation honours every expectation it carries if and only
  if it is no self-copy that may overwrite and whose destination expectation is given and differs from its
  source expectation (`StoreLaws.EveryGuardHonouredIff`); a concrete copy that services accept and that
  commits on another revision than the expected one is in `UnreadGuards.WrongGuardWitness`.
- The identifiers inside a target are not checked for UTF-8, so a collection whose target has a malformed
  identifier can be exported but its document cannot be imported: a concrete one in
  `ExportImport.MalformedTargetWitness`, the exact condition in `ExportImport.ExportedIsImportable`.

## Model

| member | source | states |
|---|---|---|
| Adapter.StoreCell.PerformInPlace | src/in_memory_adapter.cpp:163-256 | each of the nine operations, run in place, ends in the store the specification gives; a refused one has changed nothing, including a property transfer that creates its destination before it finds the conflict |
| Adapter.InMemoryAdapter.CaptureUnlocked | src/in_memory_adapter.cpp:105-117 | a snapshot of an available target's collection, existing or not; nothing for an unavailable target |
| Adapter.InMemoryAdapter.CaptureAndCheck | src/in_memory_adapter.cpp:148-161 | the guard loop stops at the first unavailable target or differing revision, with the snapshots taken so far |
| Adapter.InMemoryAdapter.ApplyUnlocked | src/in_memory_adapter.cpp:135-270 | the store and the whole result, status and snapshots, of applying one operation; the store is untouched unless the status is applied |
| Adapter.InMemoryAdapter.Transact | src/in_memory_adapter.cpp:279-300 | the candidate is installed only if every operation was applied; results up to and including the first failure |
| Adapter.MergeInto | src/in_memory_adapter.cpp:163-165 | assigning entry by entry is the map override |
| OperationLaws.SetPropertyMeans | src/in_memory_adapter.cpp:169-170 | after a write, exactly the given property of the given collection has the given value; every other property and collection is as before |
| OperationLaws.SetManyMeans | src/in_memory_adapter.cpp:171-173 | the given values win over older ones under the same keys, and every other property stays; the collection exists afterwards even if nothing was given |
| OperationLaws.RemovePropertyMeans | src/in_memory_adapter.cpp:174-181 | refused, as not found, exactly when the removal is strict and the property missing; otherwise that property is gone and nothing else |
| OperationLaws.RemoveManyMeans | src/in_memory_adapter.cpp:182-190 | refused, as not found, exactly when the removal is strict and some listed property missing; otherwise exactly the listed properties are gone |
| OperationLaws.ClearMeans | src/in_memory_adapter.cpp:191-193 | afterwards the collection is empty, or gone, as asked; all others are as before |
| OperationLaws.RenameMeans | src/in_memory_adapter.cpp:194-211 | exactly when a rename is refused and with which status; otherwise the whole collection is under the new name, its values winning in a merge, and the old name is gone |
| OperationLaws.TransferPropertyMeans | src/in_memory_adapter.cpp:212-224 | exactly when a property transfer is refused and with which status; otherwise the destination key has the source's value, also over an older one, a move takes it from the source, and every other property stays, also within one collection and onto its own key |
| OperationLaws.TransferCollectionMeans | src/in_memory_adapter.cpp:225-239 | the same for a collection: the source's values win at the destination, an older value stays only under the merge policy, and only a move to another collection removes the source |
| OperationLaws.ImportMeans | src/in_memory_adapter.cpp:240-252 | the imported values win, older ones stay only under the merge policy, and only an existing destination is refused, when asked |
| OperationLaws.SourceComesFirst | src/operations.cpp:32-46 | an operation names one or two collections, and of two the first is where it takes from and the second where it puts |
| StoreLaws.AppliedIff | src/in_memory_adapter.cpp:135-270 | an operation is applied exactly when its targets are available, its guards hold or are forced, its expectations do not clash and its own precondition holds |
| StoreLaws.AppliedMeans | src/in_memory_adapter.cpp:258-270 | what an applied operation leaves and reports: before- and after-snapshots of exactly the collections it names, and the revision of the last |
| StoreLaws.RefusedAtGuard | src/in_memory_adapter.cpp:148-161 | an operation refused by a target or a guard reports the snapshots taken up to that collection, of the unchanged store, with the status that fits it |
| StoreLaws.RefusedByOperation | src/in_memory_adapter.cpp:163-256 | one refused by its own precondition reports that status with all before-snapshots, and the store is unchanged |
| StoreLaws.Frame | src/operations.cpp:32-46 | no operation changes a collection outside its footprint |
| StoreLaws.GuardsHonoured | src/in_memory_adapter.cpp:16-48 | an unforced commit found every revision it expected and that is compared, also when both expectations of a property transfer name one collection |
| StoreLaws.HonouredIffRead | src/in_memory_adapter.cpp:16-48 | one expectation is honoured in every store and under every revision function if and only if it is compared, which all are but the destination expectation of a self-copy that may overwrite and expects something else of its source |
| StoreLaws.EveryGuardHonouredIff | src/in_memory_adapter.cpp:16-48 | so an operation honours all its expectations if and only if it is no such self-copy |
| UnreadGuards.WrongGuardCommits | src/in_memory_adapter.cpp:39-43 | in any store that holds an available collection a service may copy, its copy onto itself is accepted and applied with any wrong destination expectation |
| UnreadGuards.WrongGuardWitness | src/in_memory_adapter.cpp:39-43 | a concrete one, with the library's own revisions |
| StoreLaws.SelfCopyIgnoresDestinationGuard | src/in_memory_adapter.cpp:25-43 | the exception: a self-copy or self-rename behaves as if it had no destination expectation |
| StoreLaws.RunAllIsFold | src/in_memory_adapter.cpp:284-295 | a transaction's candidate is the left fold of its operations |
| StoreLaws.ForcedRunIsFold | src/in_memory_adapter.cpp:284-295 | on available targets a forced run of the adapter fails exactly when the fold is refused, and otherwise reaches its store |
| StoreLaws.TransactAllOrNothing | src/in_memory_adapter.cpp:279-300 | a transaction installs the fold of all operations or leaves the store, with all results applied but the last, whatever `rollback_on_failure` says; it reports a roll-back exactly when it failed and one was asked for |
| StoreLaws.SetManyIsSets | src/in_memory_adapter.cpp:169-173 | a non-empty bulk write equals its entries written one by one, in any order |
| StoreLaws.RemoveManyIsRemovals | src/in_memory_adapter.cpp:182-190 | a lenient bulk removal equals single removals, in any order |
| StoreLaws.ImportMergeIsSetMany | src/in_memory_adapter.cpp:240-250 | a merging import is a bulk write |
| StoreLaws.RenameIsMove | src/in_memory_adapter.cpp:194-211 | a rename between distinct names is a collection move within the target |
| StoreLaws.RenameUndone | src/in_memory_adapter.cpp:194-211 | a rename to a fresh name is undone by the opposite rename |
| Simulator.StepExact | src/service.cpp:254-338 | one simulated step and one real step agree: both refuse, or key sets and existence bits match afterwards |
| Simulator.SimulationExact | src/service.cpp:254-338 | for every list of operations without self-moves the simulation stops exactly when a forced run of the adapter fails, and otherwise has the key sets and existence bits of the store that run reaches |
| Simulator.SelfMoveDiffers | src/service.cpp:307-322 | a concrete self-move on which the simulator and the adapter disagree |
| Simulator.SelfMoveAgreesIff | src/service.cpp:210-212 | on self-moves, which validation rejects, they agree exactly when both refuse |
| Simulator.ScanExact | src/service.cpp:254-345 | the scan stops at the first operation a forced run of the adapter refuses or the first after which that run has a named collection over the limit, whichever is first |
| Commit.LimitErrorExact | src/service.cpp:226-347 | with available targets, the limit error is reported if and only if at some point every operation so far applies and a named collection is over the limit for the first time |
| Commit.AdmittedIff | src/service.cpp:446-456 | a request gets past its first checks if and only if it is not too long, the adapter is atomic where that is demanded, forcing comes from an administrator, and every operation is accepted |
| Commit.ForceIsDenied | src/service.cpp:452-454 | who forces without being an administrator is denied before any operation is looked at |
| Commit.CommitWithinLimit | src/service.cpp:474-478 | a list the check lets through keeps every collection within the limit when it is committed |
| Commit.CommitAllOrNothing | src/service.cpp:477-478 | the adapter call of `apply` or `transact` installs the fold of the request or nothing, with matching statuses |
| Preflight.Simulation.CaptureAll | src/service.cpp:228-252 | the capture loop builds exactly the reduced state of the store, or reports an unavailable target |
| Preflight.Simulation.Step | src/service.cpp:255-338 | the in-place update of the two maps is the simulated step |
| Preflight.ScanOperations | src/service.cpp:254-345 | the loop over the operations finds the limit exactly when the scan does |
| Preflight.ValidatePropertyLimits | src/service.cpp:226-347 | the whole check computes the limit error of the present store |
| PreflightGuards.PreflightReadsNoRevision | src/service.cpp:453-456 | in every store the preflight of a request without clashing expectations is that of the request without expectations |
| PreflightGuards.ClashIsRejected | src/service.cpp:196-201 | a request with a clash is always rejected |
| PreflightGuards.RejectedForExpectationsIff | src/service.cpp:453-456 | a request that would pass without its expectations is rejected for them, with an invalid value, if and only if the two expectations of some property transfer within one collection differ |
| PreflightGuards.StaleIsRefusedAtCommit | src/service.cpp:469-480 | a single unforced request that passed the preflight with a stale compared expectation reaches the adapter under the mutex, which answers with a conflict and keeps the store |
| PreflightGuards.StaleNeverCommits | src/service.cpp:469-480 | no unforced request commits when an operation of it meets a revision that its compared expectation does not name, also when an earlier operation of the request made it so |
| PreflightGuards.StaleClear | src/service.cpp:453-480 | a clear on another revision than the expected one passes the preflight of every service that may make it and is a conflict at commit |
| PreflightGuards.StaleWitness | src/service.cpp:453-480 | a concrete one, with the library's own revisions |
| Validation.AcceptedIff | src/service.cpp:131-224 | an operation is accepted if and only if its collections may be used, the adapter is capable, all keys and values are valid, it is small enough, its expectations do not clash and it moves nothing onto itself |
| ValidationLaws.RefRejectedWith | src/service.cpp:134-141 | which of the four statuses a collection is refused with: exactly the first reason that applies |
| ValidationLaws.OperationRejectedWith | src/service.cpp:131-224 | an operation is refused for its first collection, then its second, then itself |
| ValidationLaws.BodyRejectedWith | src/service.cpp:131-224 | and then with a status that fits: unsupported exactly when the adapter cannot do it, an invalid collection exactly for a collection moved or renamed onto itself, an invalid key or value only where there is one |
| ValidationLaws.FirstEntryDecides | src/service.cpp:145-170 | of the entries of a bulk operation the first bad one, in the order of keys, decides between an invalid key and an invalid value |
| ValidationLaws.BuiltTargetsValidIff | src/types.cpp:7-101 | a target made by any of the nine constructors is valid exactly when every identifier is given, the slot is not negative and the section is one a player has |
| ValidationLaws.LengthDecides | src/value.cpp:361-391 | a plain key, name or text is valid exactly up to its limit; keys and names must not be empty |
| ValidationLaws.FiniteIff | src/value.cpp:361-375 | a double is finite exactly when its exponent field is not all ones |
| Validation.ValidatedIsNoSelfMove | src/service.cpp:196-213 | accepted operations have no clashing expectations and are no self-moves |
| Validation.PerformKeepsGood | src/service.cpp:131-224 | accepted operations keep every stored collection's target, name, keys and values valid |
| Safety.WriteKeepsStoreOk | src/service.cpp:471-478 | a checked write keeps the store valid and within the limit |
| Safety.StepSafe | src/service.cpp:446-486 | every step of every thread keeps the protocol's invariant: mutex discipline, what a call has read is still so, the store is valid and within its limit |
| Safety.LimitsHoldInEveryRun | src/service.cpp:446-619 | over every interleaving of any number of callers with arbitrary nested calls by listeners and audit sinks, no collection exceeds the limit and everything stored is valid |
| History.HistoryExplainsStore | src/service.cpp:466-480 | the store of every run is the fold of its commits, each of them authorised and either forced by an administrator or with every compared expectation met |
| Provenance.ValuesComeFromCallers | src/service.cpp:446-619 | in every run each stored value was there at the start or was brought, unchanged, by an operation of the history: copies, moves, merges and renames invent and alter none |
| History.LinearHistory | src/in_memory_adapter.cpp:148-161 | in commit order, the after-snapshot of a collection is the before-snapshot of the next commit that touches it, across transactions and callers |
| History.GuardedCommits | src/in_memory_adapter.cpp:157-160 | of two unforced commits that compare one captured revision of a collection, the later one found that revision again |
| History.NamespaceIsolation | src/access_policy.cpp:44-50 | in no run do requests by other non-administrators change a collection a plugin can access |
| AuditTrail.ReturnedCallsAreAudited | src/service.cpp:484-485 | in every run a returned call has one record per reported operation, under its own identifier; and the history holds exactly what it reported as applied, with the returned results, so a cancelled or rejected one committed nothing |
| AuditTrail.RecordsShowResults | src/service.cpp:404-426 | in every run the i-th record of a returned call has its identifier, its i-th operation and the status of its i-th result, and says rolled back exactly when the call was a transaction that asked for it and was refused by the adapter |
| AuditTrail.ReturnedResultIsCommit | src/service.cpp:477-485 | each result an applied call returned, snapshots included, is that of one commit of the history, which the laws of histories speak of |
| AuditTrail.RecordCountMeaning | src/service.cpp:605-617 | one record for `apply`; for `transact` one per operation, or k+1 when the adapter refused operation k |
| Progress.NoDeadlock | src/service.cpp:468-480 | in every reachable state the holder of the mutex can take its next step, every thread whose innermost call does not wait for the mutex can, and when it is free every thread with a call can: callbacks never run inside the critical section |
| Progress.NeverTakenTwice | src/service.cpp:39-55 | no thread ever waits for the mutex while it holds it, however deeply listeners and audit sinks call back, so its recursion is never used by these calls |
| Services.ServiceGroup.CheckLimits | src/service.cpp:474-475 | under the mutex, the property-count check, step by step in the protocol |
| Services.ServiceGroup.CommitSection | src/service.cpp:468-480 | revalidation, limit check and adapter call give the section's result on the store found under the mutex, and release the mutex |
| ServiceEvents.EventNamesRequest | src/service.cpp:537-541 | an event names exactly the collections of its request, and the event of a transaction lists them in the one ascending order |
| EventLaws.EventsCarryRequest | src/service.cpp:349-391 | both events of a request carry its identifier, caller, name, key and collections; the first can be cancelled and shows only what was before, the second cannot |
| EventLaws.AllAreShownIff | src/service.cpp:542-545 | the event of a transaction shows all its collections, in their order, if and only if all their targets are available |
| EventLaws.HeardOfWhenWritten | src/service.cpp:463-484 | listeners hear of a call exactly when it passed the checks made under the mutex, even if the adapter then refused it, and twice exactly when it moved a collection |
| EventLaws.MigrationMoved | src/service.cpp:393-401 | a migration is announced exactly of applied collection moves, and then the collection has left its source for its destination |
| EventLaws.MatchesIff | src/events.cpp:8-18 | a filter matches exactly when its kind and key are met and one collection of the event meets all it says of collections |
| EventLaws.NamesTellOperations | src/operations.cpp:7-30 | operations of different kinds have different names, none of them that of a transaction |
| Services.ServiceGroup.Publish | src/events.cpp:39-71 | publishing from a service: the subscriptions that matched at the start are reached in order, whatever calls their listeners make to services in between |
| Services.ServiceGroup.PublishBefore | src/service.cpp:349-376 | the before-event is built from the request and the store, heard on the bus, and cancels exactly when a delivery failed or the event was left cancelled |
| Services.ServiceGroup.CommitAndPublish | src/service.cpp:378-402 | exactly when the adapter was called the after-event follows, carrying the request's identity and the snapshots of the commit whatever listeners made of the before-event; an applied collection move is announced once more |
| Services.ServiceGroup.AuditAll | src/service.cpp:404-426 | one record per operation that has a result, in order, while the audit sink calls services |
| Services.ServiceGroup.Serve | src/service.cpp:457-485 | an admitted call with reentrant listeners is a run of the protocol that ends with the caller's stack as it was and the returned result recorded; it is cancelled if and only if a subscription that matched its before-event threw or the event was left cancelled, and then it committed nothing, announces nothing more and has one cancelled record per operation; otherwise its result is that of the critical section on a store of that run |
| Services.ServiceGroup.Apply | src/service.cpp:446-486 | a call rejected before its event changes nothing, publishes nothing and returns the first error; any other has run as `Serve` says and returns what that returned, so its before-event decides whether it is cancelled |
| Services.ServiceGroup.Transact | src/service.cpp:488-619 | the same for transactions, with one cancelled record per operation; an empty one is applied without a step |
| Services.CancelledLeavesNothing | src/service.cpp:457-464 | in every run a returned call whose result is a cancellation has no commit and exactly one cancelled record per operation |
| Services.SectionNotCancelled | src/service.cpp:466-480 | nothing but the before-event cancels: the critical section never reports a cancellation |
| Services.GroupStaysWithinLimits | src/service.cpp:446-619 | so the limit and validity hold in every state the imperative services reach |
| Services.GroupAuditsEveryCall | src/service.cpp:404-426 | and their audit trail has, for every returned call, one record per reported operation with that operation and the status it returned |
| Services.CheckingOnceIsNotEnough | src/service.cpp:469-476 | why the checks are repeated under the mutex: two writes cleared on one store exceed the limit together, and the repeated check refuses the second |
| Registry.MutexRegistry.MutationMutexFor | src/service.cpp:39-55 | sweeping expired entries, then finding or creating, as specified |
| Registry.SameMutexIffSameAdapter | src/service.cpp:39-72 | through any creations and destructions, with addresses reused, two live services hold the same mutex if and only if they wrap the same adapter |
| Registry.CreationSweeps | src/service.cpp:45-48 | after a creation every registry entry belongs to a live service |
| Events.DynamicPropertyEventBus.Subscribe | src/events.cpp:20-26 | a new identifier that was never in use; an empty listener is ignored |
| Events.DynamicPropertyEventBus.Unsubscribe | src/events.cpp:28-31 | removes exactly one subscription and says whether there was one |
| Events.DynamicPropertyEventBus.Publish | src/events.cpp:39-71 | delivery to the copied subscriptions as specified; failures are reported to the handler that was set at the start |
| Events.EachMatchedRunsOnce | src/events.cpp:39-71 | in every publication, with listeners that throw, edit, subscribe, unsubscribe, publish or call services, each listener that matched at the start runs once, in order of identifiers, no other runs, and the failures are those that threw |
| Events.EventsAreThreaded | src/events.cpp:53-55 | each listener sees the event as its predecessor left it, and the outcome is what the last one left |
| Events.CancelledIff | src/service.cpp:368-375 | a before-event cancels exactly when a subscription that matched it threw or the event was left cancelled |
| Revision.MixBijective | src/snapshot.cpp:8-13 | one mixing step is a bijection on 64-bit states |
| Revision.MixSeparatesBytes | src/snapshot.cpp:8-13 | different bytes lead one state to different states |
| Revision.OneByteNeverCollides | src/snapshot.cpp:8-20 | streams of equal length that differ in one byte never collide |
| Revision.MissingDiffersFromEmpty | src/snapshot.cpp:23-33 | a missing collection and an existing empty one have different revisions |
| Revision.NamesDifferingInOneByte | src/snapshot.cpp:23-33 | so have two collections whose names differ in one byte |
| RevisionLaws.WorldsDiffer | src/snapshot.cpp:23-33 | and two collections of worlds whose identifiers differ in one byte |
| RevisionLaws.DescriptionDecides | src/snapshot.cpp:23-33 | and any two collections whose targets' descriptions differ in one byte |
| DescriptionLaws.DescriptionTells | src/types.cpp:149-161 | the description tells targets that differ in one field apart: kind, world, each identifier, block location and slot, except that all negative slots read alike and the section is left out |
| RevisionLaws.LargestKeyIsLast | src/snapshot.cpp:23-33 | the properties are hashed in the order of keys: a property with the largest key extends the hash of the collection without it by its key and its value's hash |
| RevisionLaws.MixMultipliesLast | src/snapshot.cpp:8-13 | the byte goes in before the multiplication |
| RevisionLaws.WordBytesAreDigits | src/snapshot.cpp:15-20 | a number is mixed in as its eight digits to the base 256, the lowest first |
| RevisionLaws.BooleansDiffer | src/value.cpp:409-424 | the two Booleans have different hashes |
| RevisionLaws.TextsDiffer | src/value.cpp:409-424 | so have texts that differ in one byte |
| RevisionLaws.NumbersDiffer | src/value.cpp:409-424 | and numbers, and vectors in any of their coordinates, whose bits differ in one byte |
| RevisionLaws.SnapshotShows | src/in_memory_adapter.cpp:105-117 | a snapshot shows the collection, its properties, whether it exists, its size and its revision; collections in memory are loaded, persistent and writable |
| RevisionLaws.CountIsTotal | src/snapshot.cpp:49-49 | the byte count of a collection is the sum of the sizes of its properties modulo 2^64 |
| RevisionLaws.CountedAsHashed | src/value.cpp:393-407 | a property's size is that of its key, eight, and as many bytes as its value is hashed from |
| Revision.CalculateRevision | src/snapshot.cpp:23-33 | the threaded hash is the hash of the whole byte stream |
| Revision.MakeSnapshot | src/snapshot.cpp:35-52 | the snapshot with its byte count and revision |
| AccessPolicy.NormalizeInPlace | src/access_policy.cpp:12-27 | the append-and-trim loops compute the normal form |
| AccessPolicy.NormalIffFixed | src/access_policy.cpp:12-27 | the normal identifiers are exactly those normalization leaves alone |
| AccessPolicy.NormalizeIdempotent | src/access_policy.cpp:12-27 | normalizing twice is normalizing once |
| AccessPolicy.NormalizeExample | src/access_policy.cpp:12-27 | letters become small, other characters underscores, and the ends are trimmed, on an example with all three |
| AccessPolicy.PrefixesSeparate | src/access_policy.cpp:29-33 | no collection name lies under the prefixes of two different normalized identities |
| AccessPolicy.AccessAtTheEnds | src/access_policy.cpp:44-50 | an administrator can access everything, a caller without an identity nothing |
| AccessPolicy.NoSharedCollection | src/access_policy.cpp:44-50 | two non-administrators that can access one collection have the same normalized identity |
| AccessPolicy.OwnCollections | src/access_policy.cpp:35-42 | a plugin can access its own collections, which differ exactly when the normalized logical names differ |
| AccessPolicy.DocumentedFormIff | src/access_policy.cpp:35-42 | the documented name, with the logical name as given, is the one the code gives if and only if the logical name is normal and not empty |
| AccessPolicy.DocumentedFormWitness | src/access_policy.cpp:35-42 | a logical name for which they differ, with both names |
| Ordering.SortedUnique | src/value.cpp:452-454 | a set has exactly one enumeration that ascends in a total order, so the order in which a map is printed and hashed is determined |
| Ordering.RefOrders | include/endstone_dynamic_properties/types.h:41-84 | comparing collections field by field is a total order |
| Decimal.ValueOfDigits | src/value.cpp:450-450 | a printed integer denotes the number it was printed from |
| Utf8.IsValidUtf8 | src/value.cpp:23-78 | the loop accepts exactly the concatenations of encoded scalar values |
| Utf8.ValidIffWellFormed | src/value.cpp:23-96 | the validator's table and the image of the encoder coincide (sections 3 and 4 of RFC 3629) |
| Utf8.EncodingUnique | src/value.cpp:80-96 | a text encodes at most one sequence of scalar values |
| Utf8.AppendUtf8 | src/value.cpp:80-96 | appends the encoding |
| Utf8.ValidAroundScalar | src/value.cpp:244-286 | an encoded character between two texts is valid if and only if both are |
| JsonGrammar.EscapesAreScalar | src/value.cpp:268-280 | every accepted escape or surrogate pair is a Unicode scalar value |
| JsonGrammar.CheckOnceIsEnough | src/value.cpp:244-286 | checking the decoded string once is checking every raw stretch of the source |
| JsonComplete.DocumentComplete | src/value.cpp:143-317 | white space, a tree of the grammar and white space are read as what the tree means, or refused exactly when it has invalid UTF-8, duplicate keys or infinite numbers |
| JsonSound.DocumentSound | src/value.cpp:143-317 | whatever is read derives the returned value under sections 2 to 7 of RFC 8259 |
| JsonSound.ParserIsGrammar | src/value.cpp:143-317 | the parser returns a value if and only if the text derives it |
| JsonReader.JsonParser.SkipSpace | src/value.cpp:160-163 | moves the cursor over white space |
| JsonReader.JsonParser.ParseUnicodeCodeUnit | src/value.cpp:233-242 | four hexadecimal digits, or failure |
| JsonReader.JsonParser.ParseString | src/value.cpp:244-286 | the cursor loop decodes a string as specified and stays within the text |
| JsonReader.JsonParser.ParseNumber | src/value.cpp:288-313 | scans exactly a JSON number and refuses values that are not finite |
| JsonReader.JsonParser.ParseObject | src/value.cpp:190-209 | reads members until the brace, refusing a repeated key |
| JsonReader.JsonParser.ParseArray | src/value.cpp:211-224 | reads elements until the bracket |
| JsonReader.JsonParser.ParseValue | src/value.cpp:176-188 | terminates, consumes at least one byte, and agrees with the specification |
| JsonReader.JsonParser.Parse | src/value.cpp:147-153 | a whole document without trailing data |
| JsonReader.DecodeCollectionJson | src/value.cpp:469-526 | parser, root checks and entry loop together decode as specified |
| Codec.EscapeJson | src/value.cpp:114-135 | the escaping loop |
| Codec.EscapeIsExact | src/value.cpp:114-135 | what it prints is a JSON string body that denotes the given bytes |
| Codec.EncodeCollectionJson | src/value.cpp:443-467 | the printed document |
| Codec.DecodeMembers | src/value.cpp:487-521 | the entry loop decodes all entries or none |
| CodecLaws.DocumentStands | src/value.cpp:443-467 | a printed document is in the grammar, denotes its fields, and is acceptable exactly when its texts are valid UTF-8 |
| CodecLaws.DecodedIsClean | src/value.cpp:469-526 | every decoded map has valid UTF-8 keys and strings and finite numbers |
| DecodeLaws.DocumentDecodesIff | src/value.cpp:469-526 | a text decodes to properties if and only if it derives, in the grammar, a root with schema 1, no unknown field and exactly one entry of type and value for each property |
| CodecLaws.DocumentReads | src/value.cpp:443-526 | a printed document decodes to its properties, or not at all |
| CodecLaws.RoundTrip | src/value.cpp:443-526 | it decodes to its properties if and only if numbers are finite and keys, strings, name and target description are valid UTF-8 |
| CodecLaws.SomeFormatIsFaithful | src/value.cpp:459-461 | what is asked of number printing and reading can be met |
| ExportImport.DescriptionValid | src/types.cpp:149-161 | a target's description is valid UTF-8 exactly when its identifiers are |
| ExportImport.ExportedIff | src/service.cpp:678-689 | a collection can be exported if and only if export and reading are supported, its target is valid, supported and available, its name is valid and the caller can access it |
| ExportImport.ExportedShows | src/service.cpp:678-689 | and then the document is that of its present properties and revision, under its own reference |
| ExportImport.NoSharedExport | src/service.cpp:678-689 | two non-administrators with different normalized identities never both export one collection, whatever the store holds |
| ExportImport.ImportedIff | src/service.cpp:691-705 | an import becomes an operation if and only if the document fits the limit and decodes, and the operation carries the decoded properties, the destination, the policy and the expectation |
| ExportImport.ReplaceSucceeds | src/service.cpp:691-705 | importing valid properties with Replace into a permitted, available collection passes every check in any store and changes only that collection |
| ExportImport.ExportedIsImportable | src/service.cpp:678-705 | in every reachable state, an exported document can be imported if and only if it fits the import limit and the target's identifiers are valid UTF-8, and a Replace import gives the destination exactly the exported properties |
| ExportImport.MalformedTargetWitness | src/types.cpp:149-161 | a concrete collection with a malformed world identifier that validation accepts, that exports, and whose document does not decode and imports into no service, whatever its limits |
| Documents.ExportDocument | src/service.cpp:678-689 | the checks in order, then the document of the captured snapshot |
| Documents.ImportDocument | src/service.cpp:691-705 | a long or malformed document changes nothing; any other is an `apply` of the decoded import |
| Documents.CreateServices | src/service.cpp:57-72 | services on an empty adapter with the library's own snapshots satisfy all that the theorems about services ask for |
| Sha256.Hasher.Transform | src/native_binary_identity.cpp:98-139 | the in-place schedule and rounds are the compression of section 6.2.2 of FIPS 180-4 |
| Sha256Laws.ChooseSelects | src/native_binary_identity.cpp:79-81 | where a bit of the first word is one the second word is chosen, where it is zero the third |
| Sha256Laws.ChooseIsBitwise | src/native_binary_identity.cpp:79-81 | and each bit depends only on the bits at its place |
| Sha256Laws.MajorityDecides | src/native_binary_identity.cpp:82-84 | two equal words decide, in any order |
| Sha256Laws.MajorityIsBitwise | src/native_binary_identity.cpp:82-84 | and each bit depends only on the bits at its place |
| Sha256Example.SigmasOfOne | src/native_binary_identity.cpp:85-96 | the images of a single bit under the four rotation functions |
| Sha256Example.SigmasAreShifted | src/native_binary_identity.cpp:85-90 | on all words, the rotations in the two large functions are the pairs of opposite shifts by which section 3.2 of FIPS 180-4 defines them |
| Sha256Example.SmallSigmasAreShifted | src/native_binary_identity.cpp:91-96 | and those in the two small functions, next to a plain shift |
| Sha256Example.DigestOfAbc | src/native_binary_identity.cpp:98-139 | the digest of "abc" is that of the published example, which pins the wiring of the schedule and of the 64 rounds |
| Sha256Example.TextOfAbc | src/native_binary_identity.cpp:155-160 | and the digest's text, ba7816bf to f20015ad |
| Sha256.Hasher.Update | src/native_binary_identity.cpp:44-53 | the buffer holds the incomplete block, fewer than 64 bytes, and the rest is hashed |
| Sha256.Hasher.Pad | src/native_binary_identity.cpp:56-66 | one or two final blocks are the padding of section 5.1.1 |
| Sha256.Hasher.Finish | src/native_binary_identity.cpp:55-76 | the digest of everything fed in |
| Sha256.HashBytes | src/native_binary_identity.cpp:200-204 | the digest of the bytes, as 64 hexadecimal digits |
| Sha256.HashFile | src/native_binary_identity.cpp:206-228 | for every split of a file into chunks, the digest of the whole as text; one error if the file cannot be opened, another if it was not read to its end |
| Sha256.HexTextIsInjective | src/native_binary_identity.cpp:155-160 | different digests have different texts |
| Sha256.PaddingIsInjective | src/native_binary_identity.cpp:56-66 | distinct messages of standard length have distinct paddings |
| Sha256.BigEndianAt | src/native_binary_identity.cpp:64-65 | shifting the bit count gives its bytes, most significant first |
| Sha256Constants.TableIsPrimes | src/native_binary_identity.cpp:23-40 | the numbers named for the rounds are the first 64 primes |
| Sha256Constants.ConstantsAreCubeRoots | src/native_binary_identity.cpp:23-40 | the constant that round t reads is the fraction of the cube root of the t-th prime, as section 4.2.2 of FIPS 180-4 prescribes |
| Sha256Constants.InitialValueIsSquareRoots | src/native_binary_identity.cpp:141-150 | each initial word is the fraction of the square root of the prime with that many primes below it, as section 5.3.3 prescribes |

## Left out

- External-mutation gates: the hook split holds no lock across the original call, so they are outside the limit invariant.
- The native adapter, the plugin wrapper, the manifest tooling and the Python package.
- Direct writes to the adapter: they bypass the services, and no theorem speaks of runs that contain them.
- Floating-point printing, `strtod`, stream locales and allocation failure; recursion depth and stack exhaustion in the parser.
- Error message texts, error positions and the order in which several invalid keys of one removal are reported.
- The preflight reads of the protocol's `Begin`: they only decide whether a call starts, and the state machine lets any admitted call start, so it has at least the runs of the code. `Services` does perform the check.
- Transaction identifiers are numbers; clocks and audit reasons.
- Audit sinks that throw: a record the sink loses is not in the model's trail.
- Listing of collections, `get`, `flush` and capability tables: case lists without deep state.
- Integer widths of byte counts and identifiers other than the 64-bit revision, byte-count and SHA-256 counters, which are modelled with their wrap-around.
- Safety.LimitsHoldInEveryRun: all services on the adapter have the same limits; a service with a larger limit may fill a collection beyond a smaller one.
- Preflight.Simulation.Step: an entry that holds no key stands for a missing entry, which reads the same.
- Services.ServiceGroup.Serve: listeners and audit sinks are scripts that call services on the same thread; listeners edit the event and the bus as they like, and a sink keeps its record before it calls. Other threads appear in the state machine, not in this code. The services of a group publish on one bus.
- Events.DynamicPropertyEventBus.Publish: how a listener calls back into the bus is its `Behaviour`, not heap aliasing.
- Registry.SameMutexIffSameAdapter: memory of a mutex is never reused for another live mutex, so mutexes are numbered.
- Sha256.HashFile: whether the file opens and where reading stops are inputs.
- Collision resistance of revisions beyond one byte: FNV does not have it.
