/** The commit protocol as a state machine.

    Any number of threads call services that wrap one adapter and therefore share
    one mutation mutex.  A call publishes a before-event, waits for the mutex,
    reads the collections it names one by one, decides, writes, releases the
    mutex, publishes an after-event and audits.  While a call publishes or audits,
    its listeners and the audit sink may call services again on the same thread: the
    calls of a thread form a stack.  Every action below is one atomic step, and the steps of
    different threads interleave in any order. */
module Protocol {
  import opened Types
  import opened Store
  import opened StoreLaws
  import opened Simulator
  import opened Validation
  import opened Commit

  type ThreadId = nat
  type CallId = nat

  datatype Phase =
    | PublishingBefore
    | Waiting
    | Capturing(seen: map<CollectionRef, Option<Properties>>)
    | Checked
    | Writing(settled: Settled)
    | PublishingAfter(settled: Settled)
    | Auditing(settled: Settled, done: nat)

  datatype Call = Call(id: CallId, service: Service, request: Request, phase: Phase)

  /** One applied operation, with the stores around it. */
  datatype Entry = Entry(call: CallId, service: Service, context: AccessContext, force: bool,
                         op: Operation, before: Store, after: Store, result: OperationResult)

  datatype Record = Record(call: CallId, op: Operation, status: Status, rolledBack: bool)

  datatype Returned = Returned(request: Request, settled: Settled)

  datatype System = System(
    store: Store,
    availability: Availability,
    owner: Option<ThreadId>,
    threads: map<ThreadId, seq<Call>>,
    nextId: CallId,
    history: seq<Entry>,
    log: seq<Record>,
    returned: map<CallId, Returned>)

  datatype Action =
    | Begin(t: ThreadId, service: Service, request: Request)
    | FinishBefore(t: ThreadId, cancelled: bool)
    | Acquire(t: ThreadId)
    | Capture(t: ThreadId, ref: CollectionRef)
    | Decide(t: ThreadId)
    | Write(t: ThreadId)
    | Release(t: ThreadId)
    | FinishAfter(t: ThreadId)
    | Audit(t: ThreadId)
    | Return(t: ThreadId)
    | SetAvailable(target: Target, available: bool)

  /** What all services have in common. */
  datatype Env = Env(make: SnapshotMaker, limits: ValidationLimits)

  function Stack(s: System, t: ThreadId): seq<Call> {
    if t in s.threads then s.threads[t] else []
  }

  function Top(s: System, t: ThreadId): Call
    requires Stack(s, t) != []
  {
    Stack(s, t)[|Stack(s, t)| - 1]
  }

  /** The phases in which a call runs code it does not own: listeners while it
      publishes, the sink and its failure handler while it audits. */
  predicate CallsOut(phase: Phase) {
    phase.PublishingBefore? || phase.PublishingAfter? || phase.Auditing?
  }

  /** The phases in which a call relies on holding the mutex. */
  predicate Critical(phase: Phase) {
    phase.Capturing? || phase.Checked? || phase.Writing?
  }

  function WithTop(s: System, t: ThreadId, phase: Phase): System
    requires Stack(s, t) != []
  {
    var stack := Stack(s, t);
    s.(threads := s.threads[t := stack[..|stack| - 1] + [Top(s, t).(phase := phase)]])
  }

  function Peek(store: Store, ref: CollectionRef): Option<Properties> {
    if ref in store then Some(store[ref]) else None
  }

  /** The collections that were read, as a store. */
  function StoreOf(seen: map<CollectionRef, Option<Properties>>): Store {
    map ref | ref in seen && seen[ref].Some? :: seen[ref].value
  }

  /** The history entries of a committed request, oldest first. */
  function EntriesOf(call: Call, store: Store, results: seq<OperationResult>, n: nat): (entries: seq<Entry>)
    requires n <= |call.request.operations| && n <= |results|
    requires PerformAll(store, call.request.operations[..n]).Done?
    ensures |entries| == n
  {
    if n == 0 then []
    else
      var ops := call.request.operations;
      assert ops[..n][..n - 1] == ops[..n - 1];
      EntriesOf(call, store, results, n - 1)
      + [Entry(call.id, call.service, call.request.context, call.request.force, ops[n - 1],
               PerformAll(store, ops[..n - 1]).store, PerformAll(store, ops[..n]).store, results[n - 1])]
  }

  function CommittedEntries(env: Env, availability: Availability, store: Store, call: Call): seq<Entry>
    requires call.request.kind.Single? ==> |call.request.operations| == 1
  {
    var c := CommitTo(env.make, availability, store, call.request);
    CommitAllOrNothing(env.make, availability, store, call.request);
    var ops := call.request.operations;
    assert ops[..|ops|] == ops;
    if c.settled.status == Applied then EntriesOf(call, store, c.settled.results, |ops|) else []
  }

  /** How many of a call's operations are audited. */
  function RecordCount(request: Request, settled: Settled): nat {
    if |request.operations| <= |settled.results| then |request.operations| else |settled.results|
  }

  function RecordFor(id: CallId, request: Request, settled: Settled, i: nat): Record
    requires i < RecordCount(request, settled)
  {
    Record(id, request.operations[i], settled.results[i].status, settled.attempted && settled.rolledBack)
  }

  predicate Enabled(env: Env, s: System, a: Action) {
    match a
    case Begin(t, service, request) =>
      (Stack(s, t) == [] || CallsOut(Top(s, t).phase)) && Admitted(service, request) && service.limits == env.limits
    case FinishBefore(t, _) => Stack(s, t) != [] && Top(s, t).phase.PublishingBefore?
    case Acquire(t) => Stack(s, t) != [] && Top(s, t).phase.Waiting? && s.owner in {None, Some(t)}
    case Capture(t, ref) =>
      Stack(s, t) != [] && Top(s, t).phase.Capturing? && ref in CollectionsOf(Top(s, t).request.operations)
      && ref !in Top(s, t).phase.seen
    case Decide(t) =>
      Stack(s, t) != [] && Top(s, t).phase.Capturing?
      && Top(s, t).phase.seen.Keys == CollectionsOf(Top(s, t).request.operations)
    case Write(t) => Stack(s, t) != [] && Top(s, t).phase.Checked?
      && (Top(s, t).request.kind.Single? ==> |Top(s, t).request.operations| == 1)
    case Release(t) => Stack(s, t) != [] && Top(s, t).phase.Writing?
    case FinishAfter(t) => Stack(s, t) != [] && Top(s, t).phase.PublishingAfter?
    case Audit(t) =>
      Stack(s, t) != [] && Top(s, t).phase.Auditing?
      && Top(s, t).phase.done < RecordCount(Top(s, t).request, Top(s, t).phase.settled)
    case Return(t) =>
      Stack(s, t) != [] && Top(s, t).phase.Auditing?
      && Top(s, t).phase.done == RecordCount(Top(s, t).request, Top(s, t).phase.settled)
    case SetAvailable(_, _) => true
  }

  /** The effect of an enabled action. */
  function Effect(env: Env, s: System, a: Action): System
    requires Enabled(env, s, a)
  {
    match a
    case Begin(t, service, request) =>
      s.(threads := s.threads[t := Stack(s, t) + [Call(s.nextId, service, request, PublishingBefore)]],
         nextId := s.nextId + 1)
    case FinishBefore(t, cancelled) =>
      WithTop(s, t, if cancelled then Auditing(Rejected(Top(s, t).request, Cancelled), 0) else Waiting)
    case Acquire(t) =>
      var call := Top(s, t);
      var error := FirstOperationError(call.service, call.request.context, call.request.operations);
      WithTop(s, t, if error.Some? then Writing(Rejected(call.request, error.value)) else Capturing(map[]))
      .(owner := Some(t))
    case Capture(t, ref) =>
      var call := Top(s, t);
      WithTop(s, t, if TargetAvailable(s.availability, ref.target)
                    then Capturing(call.phase.seen[ref := Peek(s.store, ref)])
                    else Writing(Rejected(call.request, TargetUnavailable)))
    case Decide(t) =>
      var call := Top(s, t);
      var ops := call.request.operations;
      var verdict := Scan(Initial(StoreOf(call.phase.seen), CollectionsOf(ops)), ops,
                          call.service.limits.maxPropertiesPerCollection);
      WithTop(s, t, if verdict.OverLimit? then Writing(Rejected(call.request, InvalidValue)) else Checked)
    case Write(t) =>
      var call := Top(s, t);
      var c := CommitTo(env.make, s.availability, s.store, call.request);
      WithTop(s, t, Writing(c.settled))
      .(store := c.store, history := s.history + CommittedEntries(env, s.availability, s.store, call))
    case Release(t) =>
      var settled := Top(s, t).phase.settled;
      WithTop(s, t, if settled.attempted then PublishingAfter(settled) else Auditing(settled, 0)).(owner := None)
    case FinishAfter(t) => WithTop(s, t, Auditing(Top(s, t).phase.settled, 0))
    case Audit(t) =>
      var call := Top(s, t);
      WithTop(s, t, call.phase.(done := call.phase.done + 1))
      .(log := s.log + [RecordFor(call.id, call.request, call.phase.settled, call.phase.done)])
    case Return(t) =>
      var call, stack := Top(s, t), Stack(s, t);
      s.(threads := s.threads[t := stack[..|stack| - 1]],
         returned := s.returned[call.id := Returned(call.request, call.phase.settled)])
    case SetAvailable(target, available) => s.(availability := s.availability[target := available])
  }

  function Next(env: Env, s: System, a: Action): System {
    if Enabled(env, s, a) then Effect(env, s, a) else s
  }

  function Start(store: Store, availability: Availability): System {
    System(store, availability, None, map[], 0, [], [], map[])
  }

  /** A run: any sequence of actions, in which an action that is not enabled does nothing. */
  function Run(env: Env, s: System, actions: seq<Action>): System {
    if actions == [] then s else Next(env, Run(env, s, actions[..|actions| - 1]), actions[|actions| - 1])
  }
}
