/** The services that wrap one adapter, as imperative code: `apply` and `transact`
    with reentrant listeners, the critical section, and the audit loop.

    Every step of the code is accompanied by the step of the protocol it takes, so
    what is proved of all runs of the protocol holds of the code.  Events go through
    the event bus.  Listeners are given as scripts: what each does to the event and
    the bus, whether it throws, and which calls it makes while it runs. */
module Services {
  import opened Types
  import opened Store
  import opened Simulator
  import opened Validation
  import opened Commit
  import opened Protocol
  import opened Adapter
  import opened Events
  import opened ServiceEvents
  import AuditTrail
  import Preflight
  import Safety
  import StoreLaws

  /** What the listeners of a call do, delivery by delivery, during each of its
      publications, and the calls its audit sink makes, record by record; beyond the end
      of the script they do nothing. */
  datatype Script = Script(before: seq<Turn>, after: seq<Turn>, migrated: seq<Turn>, audits: seq<Calls>)

  /** One delivery: the calls the listener makes, then what becomes of the event and
      the bus, and whether it throws. */
  datatype Turn = Turn(calls: Calls, react: React)

  type React = (Listener, Event, Bus) -> Reaction

  /** A call, and what the listener does to the bus before it. */
  datatype Calls = NoCalls | Nested(edit: Bus -> Bus, service: Service, request: Request, script: Script, rest: Calls)

  datatype Moment = Before | After | Migrated

  function TurnsAt(script: Script, moment: Moment): seq<Turn> {
    match moment
    case Before => script.before
    case After => script.after
    case Migrated => script.migrated
  }

  /** Every service that is called has the same limits, every call has something to
      do, and listeners reach the bus only through its methods. */
  ghost predicate ScriptOk(limits: ValidationLimits, script: Script) {
    && (forall i :: 0 <= i < |script.before| ==> TurnOk(limits, script.before[i]))
    && (forall i :: 0 <= i < |script.after| ==> TurnOk(limits, script.after[i]))
    && (forall i :: 0 <= i < |script.migrated| ==> TurnOk(limits, script.migrated[i]))
    && (forall i :: 0 <= i < |script.audits| ==> CallsOk(limits, script.audits[i]))
  }

  ghost predicate TurnOk(limits: ValidationLimits, turn: Turn) {
    CallsOk(limits, turn.calls) && ProperReact(turn.react)
  }

  ghost predicate CallsOk(limits: ValidationLimits, calls: Calls) {
    calls.Nested? ==>
      calls.service.limits == limits && Submittable(calls.request) && ProperEdit(calls.edit)
      && ScriptOk(limits, calls.script) && CallsOk(limits, calls.rest)
  }

  ghost predicate ProperReact(react: React) {
    forall listener, event, bus :: BusOk(bus) ==> Grown(bus, react(listener, event, bus).bus)
  }

  ghost predicate ProperEdit(edit: Bus -> Bus) {
    forall bus :: BusOk(bus) ==> Grown(bus, edit(bus))
  }

  /** What happened around the critical section of a call: the publication of the
      before-event, the store the section found, and the publications after it. */
  datatype Course = NotStarted | Course(heard: Published, found: Store, told: seq<Published>)

  /** What `apply` and a non-empty `transact` hand on. */
  predicate Submittable(request: Request) {
    request.operations != [] && (request.kind.Single? ==> |request.operations| == 1)
  }

  /** The thread the code runs on. */
  const HERE: ThreadId := 0

  /** `call` is the innermost call of this thread, above `base`. */
  predicate OnTop(s: System, base: seq<Call>, call: Call) {
    Stack(s, HERE) == base + [call]
  }

  // The protocol's steps, seen from the innermost call

  lemma Rephased(s: System, base: seq<Call>, call: Call, phase: Phase)
    requires OnTop(s, base, call)
    ensures Stack(s, HERE) != [] && Top(s, HERE) == call
    ensures OnTop(WithTop(s, HERE, phase), base, call.(phase := phase))
    ensures WithTop(s, HERE, phase) == s.(threads := WithTop(s, HERE, phase).threads)
  {
  }

  /** The system after a step: only the phase of the innermost call and the given
      shared fields have changed. */
  ghost predicate Steps(env: Env, s: System, a: Action, base: seq<Call>, call: Call, r: System) {
    && Enabled(env, s, a) && OnTop(Effect(env, s, a), base, call)
    && Effect(env, s, a) == r.(threads := Effect(env, s, a).threads)
  }

  lemma BeginSteps(env: Env, s: System, base: seq<Call>, service: Service, request: Request)
    requires Stack(s, HERE) == base && (base == [] || CallsOut(base[|base| - 1].phase))
    requires Admitted(service, request) && service.limits == env.limits
    ensures Steps(env, s, Begin(HERE, service, request), base, Call(s.nextId, service, request, PublishingBefore),
                  s.(nextId := s.nextId + 1))
  {
    hide Admitted;
  }

  lemma FinishBeforeSteps(env: Env, s: System, base: seq<Call>, call: Call, cancelled: bool)
    requires OnTop(s, base, call) && call.phase.PublishingBefore?
    ensures Steps(env, s, FinishBefore(HERE, cancelled), base,
                  call.(phase := if cancelled then Auditing(Rejected(call.request, Cancelled), 0) else Waiting), s)
  {
    hide Rejected, WithTop, OnTop;
    Rephased(s, base, call, if cancelled then Auditing(Rejected(call.request, Cancelled), 0) else Waiting);
  }

  lemma AcquireSteps(env: Env, s: System, base: seq<Call>, call: Call, error: Option<Status>)
    requires OnTop(s, base, call) && call.phase.Waiting? && s.owner.None?
    requires error == FirstOperationError(call.service, call.request.context, call.request.operations)
    ensures Steps(env, s, Acquire(HERE), base,
                  call.(phase := if error.Some? then Writing(Rejected(call.request, error.value))
                                 else Capturing(map[])),
                  s.(owner := Some(HERE)))
  {
    hide Rejected, WithTop, FirstOperationError;
    Rephased(s, base, call, if error.Some? then Writing(Rejected(call.request, error.value)) else Capturing(map[]));
  }

  lemma CaptureSteps(env: Env, s: System, base: seq<Call>, call: Call, ref: CollectionRef)
    requires OnTop(s, base, call) && call.phase.Capturing?
    requires ref in CollectionsOf(call.request.operations) && ref !in call.phase.seen
    ensures Steps(env, s, Capture(HERE, ref), base,
                  call.(phase := if TargetAvailable(s.availability, ref.target)
                                 then Capturing(call.phase.seen[ref := Peek(s.store, ref)])
                                 else Writing(Rejected(call.request, TargetUnavailable))), s)
  {
    hide Rejected, WithTop, CollectionsOf, TargetAvailable, OnTop;
    Rephased(s, base, call, if TargetAvailable(s.availability, ref.target)
                            then Capturing(call.phase.seen[ref := Peek(s.store, ref)])
                            else Writing(Rejected(call.request, TargetUnavailable)));
  }

  lemma DecideSteps(env: Env, s: System, base: seq<Call>, call: Call)
    requires OnTop(s, base, call) && call.phase.Capturing?
    requires call.phase.seen.Keys == CollectionsOf(call.request.operations)
    requires Safety.HasRead(s.store, call.phase.seen, CollectionsOf(call.request.operations))
    ensures var ops := call.request.operations;
            var verdict :=
              Scan(Initial(s.store, CollectionsOf(ops)), ops, call.service.limits.maxPropertiesPerCollection);
            Steps(env, s, Decide(HERE), base,
                  call.(phase := if verdict.OverLimit? then Writing(Rejected(call.request, InvalidValue))
                                 else Checked), s)
  {
    var ops := call.request.operations;
    Safety.ReadAll(s.store, call.phase.seen, CollectionsOf(ops));
    hide Rejected, WithTop, CollectionsOf, Scan, Initial, StoreOf, Safety.HasRead, OnTop;
    var verdict := Scan(Initial(s.store, CollectionsOf(ops)), ops, call.service.limits.maxPropertiesPerCollection);
    Rephased(s, base, call, if verdict.OverLimit? then Writing(Rejected(call.request, InvalidValue)) else Checked);
  }

  lemma WriteSteps(env: Env, s: System, base: seq<Call>, call: Call, c: Committing)
    requires OnTop(s, base, call) && call.phase.Checked?
    requires call.request.kind.Single? ==> |call.request.operations| == 1
    requires c == CommitTo(env.make, s.availability, s.store, call.request)
    ensures Steps(env, s, Write(HERE), base, call.(phase := Writing(c.settled)),
                  s.(store := c.store, history := s.history + CommittedEntries(env, s.availability, s.store, call)))
  {
    hide WithTop, CommitTo, CommittedEntries;
    Rephased(s, base, call, Writing(c.settled));
  }

  lemma ReleaseSteps(env: Env, s: System, base: seq<Call>, call: Call)
    requires OnTop(s, base, call) && call.phase.Writing?
    ensures var settled := call.phase.settled;
            Steps(env, s, Release(HERE), base,
                  call.(phase := if settled.attempted then PublishingAfter(settled) else Auditing(settled, 0)),
                  s.(owner := None))
  {
    hide WithTop;
    var settled := call.phase.settled;
    Rephased(s, base, call, if settled.attempted then PublishingAfter(settled) else Auditing(settled, 0));
  }

  lemma FinishAfterSteps(env: Env, s: System, base: seq<Call>, call: Call)
    requires OnTop(s, base, call) && call.phase.PublishingAfter?
    ensures Steps(env, s, FinishAfter(HERE), base, call.(phase := Auditing(call.phase.settled, 0)), s)
  {
    hide WithTop, OnTop;
    Rephased(s, base, call, Auditing(call.phase.settled, 0));
  }

  lemma AuditSteps(env: Env, s: System, base: seq<Call>, call: Call)
    requires OnTop(s, base, call) && call.phase.Auditing?
    requires call.phase.done < RecordCount(call.request, call.phase.settled)
    ensures Steps(env, s, Audit(HERE), base, call.(phase := Auditing(call.phase.settled, call.phase.done + 1)),
                  s.(log := s.log + [RecordFor(call.id, call.request, call.phase.settled, call.phase.done)]))
  {
    hide WithTop, RecordFor, RecordCount;
    Rephased(s, base, call, Auditing(call.phase.settled, call.phase.done + 1));
  }

  lemma ReturnSteps(env: Env, s: System, base: seq<Call>, call: Call)
    requires OnTop(s, base, call) && call.phase.Auditing?
    requires call.phase.done == RecordCount(call.request, call.phase.settled)
    ensures Enabled(env, s, Return(HERE))
    ensures var r := Effect(env, s, Return(HERE));
            Stack(r, HERE) == base
            && r == s.(threads := r.threads,
                       returned := s.returned[call.id := Returned(call.request, call.phase.settled)])
  {
    hide RecordCount;
  }

  /** The publications after an attempted write, from a bus on: the after-event, and
      the same once more for an applied collection move. */
  predicate Announced(request: Request, settled: Settled, event: Event, bus: Bus, told: seq<Published>)
    requires request.operations != []
  {
    if !settled.attempted then told == []
    else
      && |told| == (if Migrates(request, settled) then 2 else 1)
      && Heard(bus, event, told[0])
      && (Migrates(request, settled) ==> Heard(told[0].bus, told[0].event.(kind := CollectionMigrated), told[1]))
  }

  class ServiceGroup {
    const adapter: InMemoryAdapter
    const bus: DynamicPropertyEventBus
    var owner: Option<ThreadId>
    var nextId: CallId
    var records: seq<Record>

    ghost const env: Env
    ghost const start: System
    ghost var system: System
    ghost var trace: seq<Action>

    /** The concrete state is the protocol's state, which the trace reaches. */
    ghost predicate Valid()
      reads this, adapter, adapter.store
    {
      Linked() && Traced() && start == Start(start.store, start.availability)
    }

    ghost predicate Linked()
      reads this, adapter, adapter.store
    {
      LinkedExceptOwner() && system.owner == owner
    }

    ghost predicate LinkedExceptOwner()
      reads this, adapter, adapter.store
    {
      && adapter.make == env.make && Preflight.Honest(env.make)
      && system.store == adapter.store.entries && system.availability == adapter.availability
      && system.nextId == nextId && system.log == records
    }

    ghost predicate Traced()
      reads this
    {
      system == Run(env, start, trace)
    }

    constructor (adapter: InMemoryAdapter, bus: DynamicPropertyEventBus, limits: ValidationLimits)
      requires Preflight.Honest(adapter.make)
      ensures Valid() && this.adapter == adapter && this.bus == bus && owner.None? && records == [] && trace == []
      ensures env == Env(adapter.make, limits) && start == Start(adapter.store.entries, adapter.availability)
    {
      this.adapter, this.bus := adapter, bus;
      owner, nextId, records := None, 0, [];
      env := Env(adapter.make, limits);
      start := Start(adapter.store.entries, adapter.availability);
      system := Start(adapter.store.entries, adapter.availability);
      trace := [];
    }

    /** One step of the protocol. */
    ghost method Take(a: Action, base: seq<Call>, call: Call, r: System)
      requires Traced() && Steps(env, system, a, base, call, r)
      modifies this`system, this`trace
      ensures Traced() && OnTop(system, base, call) && system == r.(threads := system.threads)
      ensures trace == old(trace) + [a]
    {
      hide Enabled, Effect, OnTop;
      trace := trace + [a];
      system := Effect(env, system, a);
      assert trace[..|trace| - 1] == old(trace);
    }

    /** Reads one collection. */
    ghost method ReadOne(base: seq<Call>, call: Call, ref: CollectionRef) returns (read: Call)
      requires Traced() && OnTop(system, base, call) && call.phase.Capturing?
      requires ref in CollectionsOf(call.request.operations) && ref !in call.phase.seen
      requires TargetAvailable(system.availability, ref.target)
      modifies this`system, this`trace
      ensures Traced() && OnTop(system, base, read) && system == old(system).(threads := system.threads)
      ensures old(trace) <= trace
      ensures read == call.(phase := Capturing(call.phase.seen[ref := Peek(system.store, ref)]))
    {
      hide CollectionsOf, TargetAvailable, OnTop, Steps, Run;
      CaptureSteps(env, system, base, call, ref);
      read := call.(phase := Capturing(call.phase.seen[ref := Peek(system.store, ref)]));
      Take(Capture(HERE, ref), base, read, system);
    }

    /** Reads every named collection, one step each. */
    ghost method ReadAll(base: seq<Call>, call: Call) returns (read: Call)
      requires Traced() && OnTop(system, base, call) && call.phase == Capturing(map[])
      requires forall ref :: ref in CollectionsOf(call.request.operations) ==>
                 TargetAvailable(system.availability, ref.target)
      modifies this`system, this`trace
      ensures Traced() && OnTop(system, base, read) && system == old(system).(threads := system.threads)
      ensures read == call.(phase := read.phase) && read.phase.Capturing? && old(trace) <= trace
      ensures read.phase.seen.Keys == CollectionsOf(call.request.operations)
      ensures Safety.HasRead(system.store, read.phase.seen, CollectionsOf(call.request.operations))
    {
      hide CollectionsOf, TargetAvailable, OnTop, Traced, Safety.HasRead, Peek;
      var refs := CollectionsOf(call.request.operations);
      read := call;
      NothingRead(system.store, refs);
      while read.phase.seen.Keys != refs
        invariant Traced() && OnTop(system, base, read) && system == old(system).(threads := system.threads)
        invariant read == call.(phase := read.phase) && read.phase.Capturing? && old(trace) <= trace
        invariant Safety.HasRead(system.store, read.phase.seen, refs)
        decreases |refs - read.phase.seen.Keys|
      {
        var ref := ReadNext(system.store, read.phase.seen, refs);
        read := ReadOne(base, read, ref);
      }
    }

    /** The property-count check, under the mutex. */
    method CheckLimits(service: Service, request: Request, ghost base: seq<Call>, ghost call: Call)
      returns (error: Option<Status>)
      requires Valid() && OnTop(system, base, call) && call.phase == Capturing(map[])
      requires call.service == service && call.request == request
      modifies this`system, this`trace
      ensures Valid() && old(trace) <= trace && system == old(system).(threads := system.threads)
      ensures error == LimitError(adapter.availability, adapter.store.entries, request.operations,
                                  service.limits.maxPropertiesPerCollection)
      ensures OnTop(system, base,
                    call.(phase := if error.Some? then Writing(Rejected(request, error.value)) else Checked))
    {
      hide CollectionsOf, TargetAvailable, OnTop, Steps, Run, Scan, Initial, Safety.HasRead, Rejected,
           Preflight.Honest;
      var max := service.limits.maxPropertiesPerCollection;
      error := Preflight.ValidatePropertyLimits(adapter, request.operations, max);
      ghost var refs := CollectionsOf(request.operations);
      if error == Some(TargetUnavailable) {
        ghost var ref :| ref in refs && !TargetAvailable(system.availability, ref.target);
        CaptureSteps(env, system, base, call, ref);
        Take(Capture(HERE, ref), base, call.(phase := Writing(Rejected(request, TargetUnavailable))), system);
      } else {
        ghost var read := ReadAll(base, call);
        DecideSteps(env, system, base, read);
        Take(Decide(HERE), base,
             read.(phase := if error.Some? then Writing(Rejected(request, InvalidValue)) else Checked), system);
      }
    }

    /** The adapter call. */
    method Write(request: Request, ghost base: seq<Call>, ghost call: Call) returns (settled: Settled)
      requires Valid() && OnTop(system, base, call) && call.phase.Checked? && call.request == request
      requires request.kind.Single? ==> |request.operations| == 1
      modifies this`system, this`trace, adapter.store
      ensures Valid() && old(trace) <= trace
      ensures Committing(adapter.store.entries, settled)
           == CommitTo(adapter.make, adapter.availability, old(adapter.store.entries), request)
      ensures OnTop(system, base, call.(phase := Writing(settled)))
    {
      hide OnTop, Steps, Run, ApplyTo, TransactOn, CommittedEntries, Preflight.Honest;
      ghost var c := CommitTo(adapter.make, adapter.availability, adapter.store.entries, request);
      match request.kind {
        case Single =>
          var result := adapter.Apply(request.operations[0], request.force);
          settled := Settled(result.status, [result], true, false);
        case Atomic(rollbackOnFailure, requireAtomic) =>
          var tx := Transaction(request.operations, request.force, rollbackOnFailure, requireAtomic);
          var result := adapter.Transact(tx);
          settled := Settled(result.status, result.results, true, result.rolledBack);
      }
      hide CommitTo;
      WriteSteps(env, system, base, call, c);
      Take(Action.Write(HERE), base, call.(phase := Writing(settled)),
           system.(store := c.store,
                   history := system.history + CommittedEntries(env, system.availability, system.store, call)));
    }

    /** `validateOperation` for every operation in turn. */
    method FirstError(service: Service, request: Request) returns (error: Option<Status>)
      ensures error == FirstOperationError(service, request.context, request.operations)
    {
      hide ValidateOperation;
      var ops := request.operations;
      assert ops[0..] == ops;
      for i := 0 to |ops|
        invariant FirstOperationError(service, request.context, ops)
               == FirstOperationError(service, request.context, ops[i..])
      {
        assert ops[i..][1..] == ops[i + 1..];
        error := ValidateOperation(service, request.context, ops[i]);
        if error.Some? { return error; }
      }
      error := None;
    }

    /** The critical section: revalidate, check the limits, write.  A transaction is
        captured before and after. */
    method CommitSection(service: Service, request: Request, ghost base: seq<Call>, ghost call: Call)
      returns (settled: Settled, before: seq<Snapshot>, after: seq<Snapshot>)
      requires Valid() && owner.None? && OnTop(system, base, call) && call.phase.Waiting?
      requires call.service == service && call.request == request && Submittable(request)
      modifies this`system, this`trace, this`owner, adapter.store
      ensures Valid() && owner.None? && old(trace) <= trace
      ensures Committing(adapter.store.entries, settled)
           == SectionResult(adapter.make, adapter.availability, old(adapter.store.entries), service, request)
      ensures OnTop(system, base,
                    call.(phase := if settled.attempted then PublishingAfter(settled) else Auditing(settled, 0)))
      ensures request.kind.Atomic? ==>
                && before == AvailableSnapshots(adapter.make, adapter.availability, old(adapter.store.entries),
                                                EventCollections(request))
                && after == AvailableSnapshots(adapter.make, adapter.availability, adapter.store.entries,
                                               EventCollections(request))
    {
      hide OnTop, Steps, Run, SectionResult, Preflight.Honest, AvailableSnapshots, EventCollections;
      before, after := [], [];
      owner := Some(HERE);
      if request.kind.Atomic? { before := CaptureEach(adapter, EventCollections(request)); }
      ghost var written;
      settled, written := Locked(service, request, base, call);
      if request.kind.Atomic? { after := CaptureEach(adapter, EventCollections(request)); }
      owner := None;
      ReleaseSteps(env, system, base, written);
      Take(Release(HERE), base,
           call.(phase := if settled.attempted then PublishingAfter(settled) else Auditing(settled, 0)),
           system.(owner := None));
    }

    /** What happens while the mutex is held. */
    method Locked(service: Service, request: Request, ghost base: seq<Call>, ghost call: Call)
      returns (settled: Settled, ghost written: Call)
      requires Traced() && start == Start(start.store, start.availability) && owner == Some(HERE)
      requires system.owner.None? && LinkedExceptOwner()
      requires OnTop(system, base, call) && call.phase.Waiting?
      requires call.service == service && call.request == request && Submittable(request)
      modifies this`system, this`trace, adapter.store
      ensures Valid() && old(trace) <= trace
      ensures written == call.(phase := Writing(settled)) && OnTop(system, base, written)
      ensures Committing(adapter.store.entries, settled)
           == SectionResult(adapter.make, adapter.availability, old(adapter.store.entries), service, request)
    {
      hide OnTop, Steps, Run, CommitTo, LimitError, FirstOperationError, Preflight.Honest, Rejected;
      var error := FirstError(service, request);
      AcquireSteps(env, system, base, call, error);
      ghost var now :=
        call.(phase := if error.Some? then Writing(Rejected(request, error.value)) else Capturing(map[]));
      Take(Acquire(HERE), base, now, system.(owner := Some(HERE)));
      if error.None? {
        error := CheckLimits(service, request, base, now);
        now := call.(phase := if error.Some? then Writing(Rejected(request, error.value)) else Checked);
      }
      if error.Some? {
        settled := Rejected(request, error.value);
      } else {
        settled := Write(request, base, now);
      }
      written := call.(phase := Writing(settled));
    }

    /** The innermost call of this thread, if any, is publishing or auditing. */
    ghost predicate Callable()
      reads this, adapter, adapter.store, bus
    {
      Valid() && owner.None? && TopCallsOut(Stack(system, HERE)) && BusOk(bus.Now())
    }

    /** What a call leaves behind. */
    twostate predicate Completed()
      reads this, adapter, adapter.store, bus
    {
      && Callable() && Stack(system, HERE) == old(Stack(system, HERE)) && old(trace) <= trace
      && Grown(old(bus.Now()), bus.Now())
    }

    /** While `call` publishes or audits. */
    ghost predicate InEvent(base: seq<Call>, call: Call)
      reads this, adapter, adapter.store, bus
    {
      Valid() && owner.None? && BusOk(bus.Now()) && OnTop(system, base, call) && CallsOut(call.phase)
    }

    /** The calls a listener or the audit sink makes while `call` publishes or audits. */
    method RunCalls(calls: Calls, ghost base: seq<Call>, ghost call: Call)
      requires InEvent(base, call) && CallsOk(env.limits, calls)
      modifies this, adapter.store, bus
      ensures InEvent(base, call) && old(trace) <= trace && Grown(old(bus.Now()), bus.Now())
      decreases calls
    {
      hide Run, Preflight.Honest, ScriptOk, Grown, Heard, Linked;
      ghost var entered := bus.Now();
      if calls.Nested? {
        ProperlyEdited(calls.edit, bus.Now());
        bus.Become(calls.edit(bus.Now()));
        ghost var edited := bus.Now();
        var settled, _ := Submit(calls.service, calls.request, calls.script);
        GrownTransitive(entered, edited, bus.Now());
        ghost var served := bus.Now();
        RunCalls(calls.rest, base, call);
        GrownTransitive(entered, served, bus.Now());
      } else {
        GrownReflexive(entered);
      }
    }

    /** One delivery. */
    method HearOne(
      script: Script, moment: Moment, i: nat, id: SubscriptionId, front: Published,
      copied: map<SubscriptionId, Subscription>,
      handler: bool, ghost start: Bus, ghost ids: seq<SubscriptionId>, ghost event: Event, ghost base: seq<Call>,
      ghost call: Call)
      returns (published: Published)
      requires InEvent(base, call) && ScriptOk(env.limits, script)
      requires HeardBy(start, ids, event, front) && front.bus == bus.Now()
      requires id in copied && copied == start.subscriptions
      modifies this, adapter.store, bus
      ensures InEvent(base, call) && old(trace) <= trace
      ensures HeardBy(start, ids + [id], event, published) && published.bus == bus.Now()
      decreases script, 0
    {
      hide Run, Preflight.Honest, CallsOk, Grown, HeardBy, Linked, OnTop, ProperReact;
      ghost var entered := bus.Now();
      HeardGrows(start, ids, event, front);
      var listener := copied[id].listener;
      var turns := TurnsAt(script, moment);
      var reaction := Reaction(front.event, bus.Now(), false);
      if i < |turns| {
        TurnsAreOk(env.limits, script, moment, i);
        RunCalls(turns[i].calls, base, call);
        GrownTransitive(start, entered, bus.Now());
        ProperlyReacted(turns[i].react, listener, front.event, bus.Now());
        reaction := turns[i].react(listener, front.event, bus.Now());
        GrownTransitive(start, bus.Now(), reaction.bus);
      }
      GrownIsOk(start, reaction.bus);
      published := bus.Accept(id, listener, front, handler, reaction);
      HeardOne(start, ids, event, front, id, reaction);
    }

    /** Publishes an event of `call`: the matching subscriptions are copied, then
        their listeners run one by one. */
    method Publish(event: Event, script: Script, moment: Moment, ghost base: seq<Call>, ghost call: Call)
      returns (published: Published)
      requires InEvent(base, call) && ScriptOk(env.limits, script)
      modifies this, adapter.store, bus
      ensures InEvent(base, call) && old(trace) <= trace
      ensures Heard(old(bus.Now()), event, published) && published.bus == bus.Now()
      decreases script, 1
    {
      hide Run, Preflight.Honest, Grown, HeardBy, Linked, OnTop, Matching, BusOk, EventFilter.Matches;
      var copied, handler := bus.subscriptions, bus.reporting;
      ghost var first := bus.Now();
      var ids := bus.Collect(event);
      HeardNone(first, event);
      published := Published(event, bus.Now(), [], []);
      for i := 0 to |ids|
        invariant InEvent(base, call) && old(trace) <= trace
        invariant HeardBy(first, ids[..i], event, published) && published.bus == bus.Now()
      {
        published := HearOne(script, moment, i, ids[i], published, copied, handler, first, ids[..i], event, base, call);
        assert ids[..i] + [ids[i]] == ids[..i + 1];
      }
      assert ids[..|ids|] == ids;
    }

    /** The before-event: listeners may call services, throw, and edit the event. */
    method PublishBefore(service: Service, request: Request, script: Script, ghost base: seq<Call>)
      returns (id: CallId, cancelled: bool, ghost heard: Published)
      requires Callable() && base == Stack(system, HERE)
      requires service.limits == env.limits && Admitted(service, request) && ScriptOk(env.limits, script)
      modifies this, adapter.store, bus
      ensures Valid() && owner.None? && BusOk(bus.Now()) && old(trace) <= trace && id == old(nextId)
      ensures Heard(old(bus.Now()), FirstEvent(old(nextId), request, old(adapter.store.entries)), heard)
      ensures heard.bus == bus.Now() && Grown(old(bus.Now()), bus.Now()) && (cancelled <==> Cancels(heard))
      ensures OnTop(system, base,
                    Call(id, service, request,
                         if cancelled then Auditing(Rejected(request, Cancelled), 0) else Waiting))
      decreases script, 2
    {
      hide OnTop, Steps, Run, Admitted, Rejected, Preflight.Honest, ScriptOk, HeardBy, Grown, AvailableSnapshots,
           BeforeEvent, EventCollections, Matching;
      ghost var first := bus.Now();
      AdmittedIsSubmittable(service, request);
      id := nextId;
      ghost var call := Call(id, service, request, PublishingBefore);
      BeginSteps(env, system, base, service, request);
      nextId := nextId + 1;
      Take(Begin(HERE, service, request), base, call, system.(nextId := system.nextId + 1));
      var before := CaptureEach(adapter, EventCollections(request));
      var published := Publish(BeforeEvent(id, request, before), script, Before, base, call);
      heard := published;
      HeardIsGrown(first, BeforeEvent(id, request, before), published);
      cancelled := published.event.cancelled || published.failures != [];
      FinishBeforeSteps(env, system, base, call, cancelled);
      Take(FinishBefore(HERE, cancelled), base,
           call.(phase := if cancelled then Auditing(Rejected(request, Cancelled), 0) else Waiting), system);
    }

    /** The before-event of a request that finds the given store. */
    ghost function FirstEvent(id: CallId, request: Request, store: Store): Event
      reads adapter
      requires request.operations != []
    {
      BeforeEvent(id, request, AvailableSnapshots(adapter.make, adapter.availability, store, EventCollections(request)))
    }

    /** The after-event of a request whose critical section found the given store. */
    ghost function LastEvent(
      id: CallId, service: Service, request: Request, settled: Settled, found: Store): Event
      reads adapter
      requires Submittable(request) && settled.results != []
    {
      var refs := EventCollections(request);
      var committed := SectionResult(adapter.make, adapter.availability, found, service, request).store;
      if request.kind.Single? then
        AfterEvent(id, request, settled.results[0].before, settled.results[0].after)
      else
        AfterEvent(id, request, AvailableSnapshots(adapter.make, adapter.availability, found, refs),
                   AvailableSnapshots(adapter.make, adapter.availability, committed, refs))
    }

    /** The critical section and, when the adapter was called, the after-event and the
        announcement of a collection move. */
    method CommitAndPublish(
      id: CallId, service: Service, request: Request, script: Script, ghost base: seq<Call>, ghost call: Call)
      returns (settled: Settled, ghost told: seq<Published>)
      requires Valid() && owner.None? && BusOk(bus.Now()) && OnTop(system, base, call) && call.phase.Waiting?
      requires call.service == service && call.request == request
      requires Submittable(request) && ScriptOk(env.limits, script)
      modifies this, adapter.store, bus
      ensures Valid() && owner.None? && BusOk(bus.Now()) && Grown(old(bus.Now()), bus.Now()) && old(trace) <= trace
      ensures OnTop(system, base, call.(phase := Auditing(settled, 0)))
      ensures settled
           == SectionResult(adapter.make, adapter.availability, old(adapter.store.entries), service, request).settled
      ensures settled.results != []
      ensures Announced(request, settled, LastEvent(id, service, request, settled, old(adapter.store.entries)),
                        old(bus.Now()), told)
      decreases script, 2
    {
      hide OnTop, Steps, Run, Preflight.Honest, SectionResult, ScriptOk, Heard, Grown, AvailableSnapshots, AfterEvent,
           EventCollections;
      ghost var first := bus.Now();
      told := [];
      GrownReflexive(first);
      SectionHasResults(adapter.make, adapter.availability, adapter.store.entries, service, request);
      var before, after;
      settled, before, after := CommitSection(service, request, base, call);
      if settled.attempted {
        ghost var publishing := call.(phase := PublishingAfter(settled));
        if request.kind.Single? { before, after := settled.results[0].before, settled.results[0].after; }
        var published := Publish(AfterEvent(id, request, before, after), script, After, base, publishing);
        told := [published];
        HeardIsGrown(first, AfterEvent(id, request, before, after), published);
        if Migrates(request, settled) {
          ghost var second := bus.Now();
          var again := Publish(published.event.(kind := CollectionMigrated), script, Migrated, base, publishing);
          told := [published, again];
          HeardIsGrown(second, published.event.(kind := CollectionMigrated), again);
          GrownTransitive(first, second, bus.Now());
        }
        FinishAfterSteps(env, system, base, publishing);
        Take(FinishAfter(HERE), base, call.(phase := Auditing(settled, 0)), system);
      }
    }

    /** One audit record per operation that has a result; the sink may call services. */
    method AuditAll(
      id: CallId, request: Request, settled: Settled, script: Script, ghost base: seq<Call>, ghost call: Call)
      requires InEvent(base, call) && call.phase == Auditing(settled, 0) && ScriptOk(env.limits, script)
      requires call.id == id && call.request == request
      modifies this, adapter.store, bus
      ensures InEvent(base, call.(phase := Auditing(settled, RecordCount(request, settled))))
      ensures old(trace) <= trace && Grown(old(bus.Now()), bus.Now())
      decreases script, 2
    {
      hide OnTop, Steps, Run, Preflight.Honest, RecordFor, RecordCount, Grown, BusOk, CallsOk, Linked;
      ghost var first := bus.Now();
      StillGrown(first);
      var count := RecordCount(request, settled);
      for i := 0 to count
        invariant InEvent(base, call.(phase := Auditing(settled, i))) && old(trace) <= trace
        invariant Grown(first, bus.Now())
      {
        AuditOne(id, request, settled, i, base, call.(phase := Auditing(settled, i)));
        ghost var recorded := bus.Now();
        if i < |script.audits| {
          RunCalls(script.audits[i], base, call.(phase := Auditing(settled, i + 1)));
          GrownTransitive(first, recorded, bus.Now());
        }
      }
    }

    /** One audit record. */
    method AuditOne(
      id: CallId, request: Request, settled: Settled, i: nat, ghost base: seq<Call>, ghost call: Call)
      requires InEvent(base, call) && call.phase == Auditing(settled, i) && i < RecordCount(request, settled)
      requires call.id == id && call.request == request
      modifies this`system, this`trace, this`records
      ensures InEvent(base, call.(phase := Auditing(settled, i + 1))) && old(trace) <= trace
    {
      hide OnTop, Steps, Run, Preflight.Honest, RecordFor, RecordCount, BusOk;
      var entry := RecordFor(id, request, settled, i);
      AuditSteps(env, system, base, call);
      records := records + [entry];
      Take(Audit(HERE), base, call.(phase := Auditing(settled, i + 1)), system.(log := system.log + [entry]));
    }

    /** An admitted call: the before-event, the critical section, the after-event and
        the audit. */
    method Serve(service: Service, request: Request, script: Script)
      returns (settled: Settled, ghost course: Course)
      requires Callable() && service.limits == env.limits && Admitted(service, request) && ScriptOk(env.limits, script)
      modifies this, adapter.store, bus
      ensures Completed() && Ran(service, request, settled, course)
      decreases script, 4
    {
      hide OnTop, Steps, Run, Admitted, Rejected, SectionResult, RecordCount, Preflight.Honest, ScriptOk, Linked,
           Traced, Heard, Grown, FirstEvent, LastEvent, Announced, BusOk, Interrupted, Judged, Visited, Cancels;
      ghost var base, first := Stack(system, HERE), bus.Now();
      AdmittedIsSubmittable(service, request);
      ghost var event := FirstEvent(nextId, request, adapter.store.entries);
      var id, cancelled;
      ghost var heard, told;
      id, cancelled, heard := PublishBefore(service, request, script, base);
      CancelledIff(first, event, heard);
      ghost var call := Call(id, service, request, Auditing(Rejected(request, Cancelled), 0));
      ghost var found, at := adapter.store.entries, trace;
      FoundByRun();
      if cancelled {
        settled, told := Rejected(request, Cancelled), [];
      } else {
        ghost var second := bus.Now();
        settled, told := CommitAndPublish(id, service, request, script, base, call.(phase := Waiting));
        GrownTransitive(first, second, bus.Now());
        call := call.(phase := Auditing(settled, 0));
      }
      ghost var third := bus.Now();
      AuditAll(id, request, settled, script, base, call);
      GrownTransitive(first, third, bus.Now());
      ReturnFrom(base, call.(phase := Auditing(settled, RecordCount(request, settled))));
      course := Course(heard, found, told);
      VisitedAt(at, |old(trace)|);
      Judgement(id, service, request, settled, course);
    }

    /** A call has run.  It was cancelled exactly when a listener of its before-event
        threw or the event was left cancelled. */
    twostate predicate Ran(service: Service, request: Request, settled: Settled, course: Course)
      reads this, adapter, adapter.store, bus
      requires Submittable(request)
    {
      var id, event := old(nextId), FirstEvent(old(nextId), request, old(adapter.store.entries));
      && id in system.returned && system.returned[id] == Returned(request, settled)
      && course.Course? && Heard(old(bus.Now()), event, course.heard)
      && (settled.status == Cancelled <==> Interrupted(old(bus.Now()), event, course.heard))
      && Visited(|old(trace)|, course.found)
      && Judged(id, service, request, settled, course)
    }

    /** The store was like this after some step from the given one on. */
    ghost predicate Visited(first: nat, store: Store)
      reads this
    {
      exists k :: first <= k <= |trace| && Run(env, start, trace[..k]).store == store
    }

    lemma FoundByRun()
      requires Valid()
      ensures Run(env, start, trace).store == adapter.store.entries
    {
      hide Run, Preflight.Honest;
    }

    lemma VisitedAt(at: seq<Action>, first: nat)
      requires first <= |at| && at <= trace
      ensures Visited(first, Run(env, start, at).store)
    {
      hide Run;
      assert trace[..|at|] == at;
    }

    /** What a finished call amounts to.  A cancelled one has written nothing, its
        records say so, and nothing follows the before-event; any other has the result
        of the critical section on the store that this found, and announces exactly
        what the adapter was called for. */
    ghost predicate Judged(id: CallId, service: Service, request: Request, settled: Settled, course: Course)
      reads this, adapter
      requires Submittable(request) && course.Course?
    {
      && |settled.results| > 0 && (request.kind.Single? ==> settled.results[0].status == settled.status)
      && (settled.status == Cancelled <==> Cancels(course.heard))
      && if Cancels(course.heard) then
           && settled == Rejected(request, Cancelled) && course.told == []
           && AuditTrail.CommittedBy(system.history, id) == []
           && AuditTrail.RecordsOf(records, id) == CancelledRecords(id, request)
         else
           && settled == SectionResult(adapter.make, adapter.availability, course.found, service, request).settled
           && Announced(request, settled, LastEvent(id, service, request, settled, course.found), course.heard.bus,
                        course.told)
    }

    /** The judgement follows from the result and the audit. */
    lemma Judgement(id: CallId, service: Service, request: Request, settled: Settled, course: Course)
      requires Valid() && Submittable(request) && course.Course?
      requires id in system.returned && system.returned[id] == Returned(request, settled)
      requires Cancels(course.heard) ==> settled == Rejected(request, Cancelled) && course.told == []
      requires !Cancels(course.heard) ==>
                 && settled == SectionResult(adapter.make, adapter.availability, course.found, service, request).settled
                 && settled.results != []
                 && Announced(request, settled, LastEvent(id, service, request, settled, course.found),
                              course.heard.bus, course.told)
      ensures Judged(id, service, request, settled, course)
      ensures settled.status == Cancelled <==> Cancels(course.heard)
    {
      hide Run, Rejected, SectionResult, Preflight.Honest, Announced, LastEvent;
      if Cancels(course.heard) {
        RejectedHasResults(request, Cancelled);
        CancelledLeavesNothing(env, start, trace, id, request);
      } else {
        SectionHasResults(adapter.make, adapter.availability, course.found, service, request);
        SectionNotCancelled(adapter.make, adapter.availability, course.found, service, request);
      }
    }

    ghost method ReturnFrom(base: seq<Call>, call: Call)
      requires Valid() && OnTop(system, base, call) && call.phase.Auditing?
      requires call.phase.done == RecordCount(call.request, call.phase.settled)
      modifies this`system, this`trace
      ensures Valid() && Stack(system, HERE) == base && trace == old(trace) + [Return(HERE)]
      ensures call.id in system.returned && system.returned[call.id] == Returned(call.request, call.phase.settled)
    {
      ReturnSteps(env, system, base, call);
      hide Preflight.Honest, Run, Enabled, Effect, OnTop, RecordCount;
      trace := trace + [Return(HERE)];
      system := Effect(env, system, Return(HERE));
      assert trace[..|trace| - 1] == old(trace);
    }

    /** Neither the protocol nor the bus has taken a step. */
    twostate predicate Untouched()
      reads this, bus
    {
      trace == old(trace) && bus.Now() == old(bus.Now())
    }

    /** A call: the checks before any event is published, then the protocol. */
    method Submit(service: Service, request: Request, script: Script)
      returns (settled: Settled, ghost course: Course)
      requires Callable() && service.limits == env.limits && Submittable(request) && ScriptOk(env.limits, script)
      modifies this, adapter.store, bus
      ensures Completed()
      ensures var error := PreflightError(service, old(adapter.availability), old(adapter.store.entries), request);
              if error.Some? then settled == Settled(error.value, [], false, false) && Untouched() && course.NotStarted?
              else Ran(service, request, settled, course)
      decreases script, 5
    {
      hide OnTop, Run, RequestError, Preflight.Honest, ScriptOk, LimitError, Judged, Heard, Grown, FirstEvent, BusOk,
           Interrupted;
      var error := RequestError(service, request);
      if error.None? {
        error := Preflight.ValidatePropertyLimits(adapter, request.operations,
                                                  service.limits.maxPropertiesPerCollection);
      }
      if error.Some? {
        settled, course := Settled(error.value, [], false, false), NotStarted;
        StillGrown(bus.Now());
      } else {
        settled, course := Serve(service, request, script);
      }
    }

    /** The outcome of `apply`: the first error of the preflight, and nothing has
        happened, or the one result of a call that has run. */
    twostate predicate Answered(
      service: Service, op: Operation, context: AccessContext, force: bool, result: OperationResult, course: Course)
      reads this, adapter, adapter.store, bus
    {
      var request, id := Request([op], context, force, Single), old(nextId);
      var error := PreflightError(service, old(adapter.availability), old(adapter.store.entries), request);
      if error.Some? then result == Failed(error.value, []) && Untouched() && course.NotStarted?
      else
        && id in system.returned && Ran(service, request, system.returned[id].settled, course)
        && result == system.returned[id].settled.results[0] && result.status == system.returned[id].settled.status
    }

    /** `DynamicPropertyService::apply`. */
    method Apply(service: Service, op: Operation, context: AccessContext, force: bool, script: Script)
      returns (result: OperationResult, ghost course: Course)
      requires Callable() && service.limits == env.limits && ScriptOk(env.limits, script)
      modifies this, adapter.store, bus
      ensures Completed() && Answered(service, op, context, force, result, course)
    {
      hide Run, RequestError, Preflight.Honest, ScriptOk, LimitError, Linked, SectionResult, Heard, FirstEvent, Grown,
           Interrupted, LastEvent, Announced;
      var settled;
      settled, course := Submit(service, Request([op], context, force, Single), script);
      result := if settled.results == [] then Failed(settled.status, []) else settled.results[0];
    }

    /** `DynamicPropertyService::transact`. */
    method Transact(service: Service, tx: Transaction, context: AccessContext, script: Script)
      returns (result: TransactionResult, ghost course: Course)
      requires Callable() && service.limits == env.limits && ScriptOk(env.limits, script)
      modifies this, adapter.store, bus
      ensures Completed()
      ensures tx.operations == [] ==>
                result == TransactionResult(Applied, [], false) && Untouched() && course.NotStarted?
      ensures tx.operations != [] ==>
                var request :=
                  Request(tx.operations, context, tx.force, Atomic(tx.rollbackOnFailure, tx.requireAtomic));
                var error := PreflightError(service, old(adapter.availability), old(adapter.store.entries), request);
                if error.Some?
                then result == TransactionResult(error.value, [], false) && Untouched() && course.NotStarted?
                else
                  && old(nextId) in system.returned
                  && Ran(service, request, system.returned[old(nextId)].settled, course)
                  && result == TransactionOf(system.returned[old(nextId)].settled)
    {
      hide Run, RequestError, Preflight.Honest, ScriptOk, LimitError, Linked, SectionResult, Heard, FirstEvent, Grown,
           Interrupted, LastEvent, Announced;
      course := NotStarted;
      if tx.operations == [] {
        StillGrown(bus.Now());
        return TransactionResult(Applied, [], false), course;
      }
      var request := Request(tx.operations, context, tx.force, Atomic(tx.rollbackOnFailure, tx.requireAtomic));
      var settled;
      settled, course := Submit(service, request, script);
      result := TransactionOf(settled);
    }

    method SetTargetAvailable(target: Target, available: bool)
      requires Callable()
      modifies this`system, this`trace, adapter`availability
      ensures Callable() && trace == old(trace) + [SetAvailable(target, available)]
    {
      hide Run, Preflight.Honest;
      adapter.SetTargetAvailable(target, available);
      trace := trace + [SetAvailable(target, available)];
      system := system.(availability := system.availability[target := available]);
      assert trace[..|trace| - 1] == old(trace);
      RunStep(env, start, old(trace), SetAvailable(target, available));
    }
  }

  lemma NothingRead(store: Store, refs: set<CollectionRef>)
    ensures Safety.HasRead(store, map[], refs)
  {
  }

  /** Some collection that has not been read, and what reading it gives. */
  lemma ReadNext(store: Store, seen: map<CollectionRef, Option<Properties>>, refs: set<CollectionRef>)
    returns (ref: CollectionRef)
    requires Safety.HasRead(store, seen, refs) && seen.Keys != refs
    ensures ref in refs && ref !in seen && Safety.HasRead(store, seen[ref := Peek(store, ref)], refs)
    ensures |refs - seen[ref := Peek(store, ref)].Keys| < |refs - seen.Keys|
  {
    ref :| ref in refs && ref !in seen;
    assert refs - seen.Keys == (refs - seen[ref := Peek(store, ref)].Keys) + {ref};
  }

  lemma StillGrown(bus: Bus)
    ensures BusOk(bus) ==> Grown(bus, bus)
  {
  }

  lemma GrownIsOk(start: Bus, bus: Bus)
    requires Grown(start, bus)
    ensures BusOk(bus)
  {
  }

  lemma HeardIsGrown(start: Bus, event: Event, p: Published)
    requires Heard(start, event, p)
    ensures Grown(start, p.bus) && BusOk(p.bus)
  {
    hide HeardBy, Matching;
    HeardGrows(start, Matching(start.subscriptions, event, start.nextId), event, p);
  }

  lemma TurnsAreOk(limits: ValidationLimits, script: Script, moment: Moment, i: nat)
    requires ScriptOk(limits, script) && i < |TurnsAt(script, moment)|
    ensures TurnOk(limits, TurnsAt(script, moment)[i])
  {
  }

  lemma ProperlyReacted(react: React, listener: Listener, event: Event, bus: Bus)
    requires ProperReact(react) && BusOk(bus)
    ensures Grown(bus, react(listener, event, bus).bus)
  {
  }

  lemma ProperlyEdited(edit: Bus -> Bus, bus: Bus)
    requires ProperEdit(edit) && BusOk(bus)
    ensures Grown(bus, edit(bus)) && BusOk(edit(bus))
  {
  }

  function TransactionOf(settled: Settled): TransactionResult {
    TransactionResult(settled.status, settled.results, settled.rolledBack)
  }

  /** One record per operation, each of them cancelled. */
  function CancelledRecords(id: CallId, request: Request): seq<Record> {
    seq(|request.operations|, i requires 0 <= i < |request.operations| =>
          Record(id, request.operations[i], Cancelled, false))
  }

  lemma RunStep(env: Env, start: System, trace: seq<Action>, a: Action)
    ensures Run(env, start, trace + [a]) == Next(env, Run(env, start, trace), a)
  {
    hide Next;
    assert (trace + [a])[..|trace|] == trace;
  }

  /** In every state the services reach, with whatever listeners, every collection
      is valid and within the limit. */
  lemma GroupStaysWithinLimits(group: ServiceGroup)
    requires group.Valid() && Safety.StoreOk(group.env, group.start.store)
    ensures Safety.StoreOk(group.env, group.adapter.store.entries)
  {
    hide Run, GoodStore, WithinLimit, Preflight.Honest;
    Safety.LimitsHoldInEveryRun(group.env, group.start.store, group.start.availability, group.trace);
  }

  /** Every call that has returned is audited, under its own identifier: one record per
      reported operation, with that operation and the status it returned. */
  lemma GroupAuditsEveryCall(group: ServiceGroup, id: CallId)
    requires group.Valid() && id in group.system.returned
    ensures var r := group.system.returned[id];
            var records := AuditTrail.RecordsOf(group.records, id);
            && |records| == RecordCount(r.request, r.settled)
            && forall i :: 0 <= i < |records| ==>
                 && records[i].call == id && records[i].op == r.request.operations[i]
                 && records[i].status == r.settled.results[i].status
  {
    hide Run, Preflight.Honest, AuditTrail.RecordsOf;
    AuditTrail.RecordsShowResults(group.env, group.start.store, group.start.availability, group.trace, id);
  }

  /** Why the checks are repeated under the mutex: two writes that each passed the
      check on the same store can exceed the limit together; after the first, the
      repeated check refuses the second. */
  lemma CheckingOnceIsNotEnough(
    availability: Availability, store: Store, ref: CollectionRef, a: string, b: string, value: Value)
    requires a != b && a !in Lookup(store, ref) && b !in Lookup(store, ref) && TargetAvailable(availability, ref.target)
    ensures var first, second := SetProperty(ref, a, value, None), SetProperty(ref, b, value, None);
            var max := |Lookup(store, ref)| + 1;
            && LimitError(availability, store, [first], max).None?
            && LimitError(availability, store, [second], max).None?
            && LimitError(availability, Perform(store, first).store, [second], max) == Some(InvalidValue)
  {
    var max := |Lookup(store, ref)| + 1;
    var first, second := SetProperty(ref, a, value, None), SetProperty(ref, b, value, None);
    var after := Perform(store, first).store;
    assert |Lookup(after, ref)| == max;
    OneSetLimit(availability, store, ref, a, value, max);
    OneSetLimit(availability, store, ref, b, value, max);
    OneSetLimit(availability, after, ref, b, value, max);
  }

  /** The check of a single write. */
  lemma OneSetLimit(availability: Availability, store: Store, ref: CollectionRef, key: string, value: Value, max: nat)
    requires key !in Lookup(store, ref) && TargetAvailable(availability, ref.target)
    ensures LimitError(availability, store, [SetProperty(ref, key, value, None)], max)
         == if |Lookup(store, ref)| + 1 > max then Some(InvalidValue) else None
  {
    var op := SetProperty(ref, key, value, None);
    var ops := [op];
    assert OperationCollections(ops[0])[0] == ref;
    assert CollectionsOf(ops) == {ref};
    hide TargetAvailable, CollectionsOf;
    LimitErrorExact(availability, store, ops, max);
    assert ops[..1] == ops && ops[..0] == [];
    var after := Perform(store, op).store;
    assert StoreLaws.PerformAll(store, ops) == Done(after);
    assert |Lookup(after, ref)| == |Lookup(store, ref)| + 1;
    hide Perform, Lookup, LimitError;
    assert OverLimitAt(store, {ref}, ops, 0, max) <==> |Lookup(after, ref)| > max;
  }

  predicate TopCallsOut(stack: seq<Call>) {
    stack == [] || CallsOut(stack[|stack| - 1].phase)
  }

  /** The checks before the before-event. */
  function PreflightError(
    service: Service, availability: Availability, store: Store, request: Request): Option<Status> {
    var error := RequestError(service, request);
    if error.Some? then error
    else LimitError(availability, store, request.operations, service.limits.maxPropertiesPerCollection)
  }

  lemma AdmittedIsSubmittable(service: Service, request: Request)
    requires Admitted(service, request)
    ensures Submittable(request)
  {
    hide RequestError;
  }

  lemma RejectedHasResults(request: Request, status: Status)
    requires Submittable(request)
    ensures |Rejected(request, status).results| > 0 && Rejected(request, status).status == status
    ensures Rejected(request, status).results[0].status == Rejected(request, status).status
  {
  }

  /** A cancelled call has written nothing, and its records say so. */
  lemma CancelledLeavesNothing(env: Env, start: System, trace: seq<Action>, id: CallId, request: Request)
    requires start == Start(start.store, start.availability) && id in Run(env, start, trace).returned
    requires Run(env, start, trace).returned[id] == Returned(request, Rejected(request, Cancelled))
    ensures AuditTrail.CommittedBy(Run(env, start, trace).history, id) == []
    ensures AuditTrail.RecordsOf(Run(env, start, trace).log, id) == CancelledRecords(id, request)
  {
    hide Run, AuditTrail.CommittedBy, AuditTrail.RecordsOf, AuditTrail.Settles;
    AuditTrail.ReturnedCallsAreAudited(env, start.store, start.availability, trace, id);
    CancelledIsExpected(id, request);
  }

  lemma CancelledIsExpected(id: CallId, request: Request)
    ensures var settled := Rejected(request, Cancelled);
            && AuditTrail.Wrote(request, settled) == []
            && AuditTrail.Expected(id, request, settled, RecordCount(request, settled)) == CancelledRecords(id, request)
  {
    var settled := Rejected(request, Cancelled);
    assert RecordCount(request, settled) == |request.operations|;
  }

  /** The critical section never cancels. */
  lemma SectionNotCancelled(
    make: SnapshotMaker, availability: Availability, store: Store, service: Service, request: Request)
    requires Submittable(request)
    ensures SectionResult(make, availability, store, service, request).settled.status != Cancelled
  {
    hide LimitError, FirstOperationError, RunAll;
    LimitIsNoCancellation(availability, store, request.operations, service.limits.maxPropertiesPerCollection);
    if request.kind.Single? {
      ApplyIsNoCancellation(make, availability, store, request.operations[0], request.force);
    }
    hide ApplyTo;
  }

  lemma LimitIsNoCancellation(availability: Availability, store: Store, ops: seq<Operation>, max: nat)
    ensures LimitError(availability, store, ops, max) != Some(Cancelled)
  {
    hide Scan, Initial, CollectionsOf;
  }

  lemma ApplyIsNoCancellation(
    make: SnapshotMaker, availability: Availability, store: Store, op: Operation, force: bool)
    ensures ApplyTo(make, availability, store, op, force).result.status != Cancelled
  {
    hide Perform, CheckGuards, Distinct, OperationCollections, SnapshotsIn;
  }

  lemma SectionHasResults(
    make: SnapshotMaker, availability: Availability, store: Store, service: Service, request: Request)
    requires Submittable(request)
    ensures var settled := SectionResult(make, availability, store, service, request).settled;
            |settled.results| > 0 && (request.kind.Single? ==> settled.results[0].status == settled.status)
  {
    hide CommitTo, LimitError, FirstOperationError, Rejected, StoreLaws.PerformAll;
    CommitAllOrNothing(make, availability, store, request);
    forall status { RejectedHasResults(request, status); }
  }

  /** What the critical section makes of a store. */
  function SectionResult(
    make: SnapshotMaker, availability: Availability, store: Store, service: Service, request: Request): Committing
    requires request.kind.Single? ==> |request.operations| == 1
  {
    var error := FirstOperationError(service, request.context, request.operations);
    if error.Some? then Committing(store, Rejected(request, error.value))
    else
      var limit := LimitError(availability, store, request.operations, service.limits.maxPropertiesPerCollection);
      if limit.Some? then Committing(store, Rejected(request, limit.value))
      else CommitTo(make, availability, store, request)
  }
}
