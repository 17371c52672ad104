/** `exportCollection` and `importCollection` as code. */
module Documents {
  import opened Types
  import opened Store
  import opened Validation
  import opened Commit
  import opened Protocol
  import opened Adapter
  import opened Events
  import opened ExportImport
  import opened JsonGrammar
  import opened Services
  import Codec
  import JsonReader
  import Preflight
  import Revision
  import Safety

  method ExportDocument(
    nf: NumberFormat, adapter: InMemoryAdapter, service: Service, context: AccessContext, ref: CollectionRef)
    returns (out: Exporting)
    requires adapter.make == Revision.SnapshotOf
    ensures out == Export(nf, service, context, adapter.availability, adapter.store.entries, ref)
  {
    hide ValidateRef, TargetAvailable, Revision.RevisionOf, Revision.ByteCount, Codec.DocumentText;
    if !service.capabilities.exportImport { return NotExported(Unsupported); }
    var error := ValidateRef(service, context, ref);
    if error.Some? { return NotExported(error.value); }
    if !service.capabilities.read { return NotExported(Unsupported); }
    var captured := adapter.CaptureUnlocked(adapter.store, ref);
    if captured.None? { return NotExported(TargetUnavailable); }
    var snapshot := captured.value;
    var document := Codec.EncodeCollectionJson(nf, ref, snapshot.properties, snapshot.revision);
    out := Exported(document, snapshot.revision);
  }

  /** A document that is too long or does not decode changes nothing; any other is an
      ordinary `apply`. */
  method ImportDocument(
    nf: NumberFormat, group: ServiceGroup, service: Service, destination: CollectionRef, document: string,
    context: AccessContext, policy: ImportPolicy, expected: Guard, script: Script)
    returns (result: OperationResult, ghost course: Course)
    requires group.Callable() && service.limits == group.env.limits && ScriptOk(group.env.limits, script)
    modifies group, group.adapter.store, group.bus
    ensures group.Completed()
    ensures var op := ImportOf(nf, service, destination, document, policy, expected);
            if op.None? then result == Failed(InvalidValue, []) && group.Untouched() && course.NotStarted?
            else group.Answered(service, op.value, context, false, result, course)
  {
    hide Codec.DecodeDocument, RequestError, LimitError, Run, Preflight.Honest, ScriptOk, SectionResult, Heard,
         Interrupted, ServiceGroup.FirstEvent, ServiceGroup.LastEvent, Announced;
    course := NotStarted;
    if |document| > service.limits.maxImportBytes { return Failed(InvalidValue, []), course; }
    var properties := JsonReader.DecodeCollectionJson(nf, document);
    if properties.None? { return Failed(InvalidValue, []), course; }
    var op := ImportCollection(destination, properties.value, expected, policy);
    result, course := group.Apply(service, op, context, false, script);
  }

  /** Services on a new adapter with the library's own snapshots: everything proved of
      the groups of services holds of them. */
  method CreateServices(limits: ValidationLimits) returns (group: ServiceGroup)
    ensures fresh(group) && fresh(group.adapter) && fresh(group.adapter.store) && fresh(group.bus)
    ensures group.Callable() && group.env == Env(Revision.SnapshotOf, limits)
    ensures group.adapter.store.entries == map[] && Safety.StoreOk(group.env, group.start.store)
  {
    hide Preflight.Honest, Revision.SnapshotOf;
    Preflight.LibrarySnapshotsAreHonest();
    var adapter := new InMemoryAdapter(Revision.SnapshotOf);
    var bus := new DynamicPropertyEventBus();
    group := new ServiceGroup(adapter, bus, limits);
    assert Stack(group.system, HERE) == [];
  }
}
