/** Safety of the commit protocol over every run: the mutex protects what a call
    has read, and the store always satisfies the validators and the limits. */
module Safety {
  import opened Types
  import opened Store
  import opened StoreLaws
  import opened Simulator
  import opened Validation
  import opened Commit
  import opened Protocol

  /** What holds of one call, given the shared state.  A call between reading and
      releasing holds the mutex, has read the present store, and, once checked,
      would not take a collection over the limit. */
  predicate CallOk(env: Env, store: Store, owner: Option<ThreadId>, nextId: CallId, t: ThreadId, call: Call) {
    var ops := call.request.operations;
    && call.id < nextId
    && call.service.limits == env.limits
    && Admitted(call.service, call.request)
    && (Critical(call.phase) ==> owner == Some(t))
    && (call.phase.Capturing? ==> HasRead(store, call.phase.seen, CollectionsOf(ops)))
    && (call.phase.Checked? ==> Fits(env, store, ops))
  }

  predicate HasRead(store: Store, seen: map<CollectionRef, Option<Properties>>, refs: set<CollectionRef>) {
    seen.Keys <= refs && forall ref :: ref in seen ==> seen[ref] == Peek(store, ref)
  }

  predicate Fits(env: Env, store: Store, ops: seq<Operation>) {
    !Scan(Initial(store, CollectionsOf(ops)), ops, env.limits.maxPropertiesPerCollection).OverLimit?
  }

  /** Only the top call of a thread is outside its publishing and auditing phases. */
  predicate StackOk(env: Env, store: Store, owner: Option<ThreadId>, nextId: CallId, t: ThreadId, stack: seq<Call>) {
    forall i :: 0 <= i < |stack| ==>
      CallOk(env, store, owner, nextId, t, stack[i]) && (i < |stack| - 1 ==> CallsOut(stack[i].phase))
  }

  predicate ThreadsOk(env: Env, s: System) {
    forall t :: t in s.threads ==> StackOk(env, s.store, s.owner, s.nextId, t, s.threads[t])
  }

  predicate StoreOk(env: Env, store: Store) {
    GoodStore(env.limits, store) && WithinLimit(store, env.limits.maxPropertiesPerCollection)
  }

  predicate Safe(env: Env, s: System) {
    ThreadsOk(env, s) && StoreOk(env, s.store)
  }

  /** The store changes only under the mutex, and the mutex changes hands only
      when it is free. */
  ghost predicate Disciplined(s: System, r: System, t: ThreadId) {
    && (forall u :: u != t ==> Stack(r, u) == Stack(s, u))
    && s.nextId <= r.nextId
    && (r.store != s.store ==> s.owner == Some(t))
    && (r.owner != s.owner ==> s.owner in {None, Some(t)})
  }

  /** A disciplined step of one thread does not disturb the others. */
  lemma {:induction false} OthersUndisturbed(env: Env, s: System, r: System, t: ThreadId, u: ThreadId)
    requires ThreadsOk(env, s) && Disciplined(s, r, t) && u != t
    ensures StackOk(env, r.store, r.owner, r.nextId, u, Stack(r, u))
  {
    hide Admitted, Fits, HasRead;
    var stack := Stack(s, u);
    assert stack != [] ==> StackOk(env, s.store, s.owner, s.nextId, u, stack);
    forall i | 0 <= i < |stack| ensures CallOk(env, r.store, r.owner, r.nextId, u, stack[i]) {
      assert CallOk(env, s.store, s.owner, s.nextId, u, stack[i]);
    }
  }

  /** Calls below the top publish or audit, so they do not depend on the shared state. */
  lemma {:induction false} LowerCallsUndisturbed(
    env: Env, s: System, t: ThreadId, store: Store, owner: Option<ThreadId>, nextId: CallId, top: Call)
    requires Stack(s, t) != [] && StackOk(env, s.store, s.owner, s.nextId, t, Stack(s, t)) && s.nextId <= nextId
    requires CallOk(env, store, owner, nextId, t, top)
    ensures StackOk(env, store, owner, nextId, t, Stack(s, t)[..|Stack(s, t)| - 1] + [top])
    ensures StackOk(env, store, owner, nextId, t, Stack(s, t)[..|Stack(s, t)| - 1])
  {
    hide Admitted, Fits, HasRead;
    var stack := Stack(s, t);
    var n := |stack| - 1;
    forall i | 0 <= i < n ensures CallOk(env, store, owner, nextId, t, stack[i]) && CallsOut(stack[i].phase) {
      assert CallOk(env, s.store, s.owner, s.nextId, t, stack[i]);
    }
  }

  /** Reading every named collection gives the simulator its exact start. */
  lemma ReadAll(store: Store, seen: map<CollectionRef, Option<Properties>>, refs: set<CollectionRef>)
    requires HasRead(store, seen, refs) && seen.Keys == refs
    ensures Initial(StoreOf(seen), refs) == Initial(store, refs)
  {
    forall ref | ref in refs
      ensures Lookup(StoreOf(seen), ref) == Lookup(store, ref) && (ref in StoreOf(seen) <==> ref in store)
    {
      assert seen[ref] == Peek(store, ref);
    }
  }

  /** The write of a checked call keeps the store good and within the limit. */
  lemma WriteKeepsStoreOk(env: Env, availability: Availability, store: Store, call: Call)
    requires StoreOk(env, store) && call.service.limits == env.limits
    requires Admitted(call.service, call.request) && Fits(env, store, call.request.operations)
    ensures StoreOk(env, CommitTo(env.make, availability, store, call.request).store)
  {
    var request := call.request;
    CommitAllOrNothing(env.make, availability, store, request);
    AdmittedOperations(call.service, request);
    var c := CommitTo(env.make, availability, store, request);
    if c.settled.status == Applied {
      CommitWithinLimit(store, request.operations, env.limits.maxPropertiesPerCollection);
      FoldKeepsGood(call.service, request.context, request.operations, store);
    }
    hide CommitTo, GoodStore, WithinLimit, Scan, Initial, PerformAll, RequestError, ValidateOperation;
  }

  /** Replacing the phase of the top call, and perhaps some shared state. */
  predicate Retopped(s: System, r: System, t: ThreadId, phase: Phase) {
    Stack(s, t) != [] && r.threads == WithTop(s, t, phase).threads && r.nextId == s.nextId
  }

  lemma {:induction false} RetoppedStack(s: System, r: System, t: ThreadId, phase: Phase)
    requires Retopped(s, r, t, phase)
    ensures Stack(r, t) == Stack(s, t)[..|Stack(s, t)| - 1] + [Top(s, t).(phase := phase)]
    ensures Top(r, t) == Top(s, t).(phase := phase)
    ensures forall u :: u != t ==> Stack(r, u) == Stack(s, u)
  {
  }

  /** A step of one thread that keeps what its top call relies on. */
  predicate TopStep(env: Env, s: System, r: System, t: ThreadId) {
    Stack(s, t) != [] && Stack(r, t) != []
    && Retopped(s, r, t, Top(r, t).phase)
    && CallOk(env, r.store, r.owner, r.nextId, t, Top(s, t).(phase := Top(r, t).phase))
    && (r.store == s.store || s.owner == Some(t))
    && (r.owner == s.owner || s.owner in {None, Some(t)})
  }

  lemma {:induction false} AcquireOk(env: Env, s: System, a: Action)
    requires Safe(env, s) && Enabled(env, s, a) && a.Acquire?
    ensures TopStep(env, s, Effect(env, s, a), a.t)
  {
    hide Admitted, StoreOk, Rejected, FirstOperationError, Fits;
    var call := Top(s, a.t);
    assert CallOk(env, s.store, s.owner, s.nextId, a.t, call);
    hide ThreadsOk;
  }

  lemma {:induction false} CaptureOk(env: Env, s: System, a: Action)
    requires Safe(env, s) && Enabled(env, s, a) && a.Capture?
    ensures TopStep(env, s, Effect(env, s, a), a.t)
  {
    hide Admitted, StoreOk, Rejected, CollectionsOf, TargetAvailable, Fits;
    var call := Top(s, a.t);
    assert CallOk(env, s.store, s.owner, s.nextId, a.t, call);
    hide ThreadsOk;
  }

  lemma {:induction false} DecideOk(env: Env, s: System, a: Action)
    requires Safe(env, s) && Enabled(env, s, a) && a.Decide?
    ensures TopStep(env, s, Effect(env, s, a), a.t)
  {
    hide Admitted, StoreOk, Rejected, CollectionsOf, Scan, Initial, HasRead;
    var call := Top(s, a.t);
    assert CallOk(env, s.store, s.owner, s.nextId, a.t, call);
    hide ThreadsOk;
    ReadAll(s.store, call.phase.seen, CollectionsOf(call.request.operations));
  }

  lemma {:induction false} FinishOk(env: Env, s: System, a: Action)
    requires Safe(env, s) && Enabled(env, s, a) && (a.FinishBefore? || a.FinishAfter?)
    ensures TopStep(env, s, Effect(env, s, a), a.t)
  {
    hide Admitted, StoreOk, Rejected, Fits, HasRead;
    var call := Top(s, a.t);
    assert CallOk(env, s.store, s.owner, s.nextId, a.t, call);
    hide ThreadsOk;
  }

  lemma {:induction false} WriteOk(env: Env, s: System, a: Action)
    requires Safe(env, s) && Enabled(env, s, a) && a.Write?
    ensures TopStep(env, s, Effect(env, s, a), a.t)
  {
    hide Admitted, StoreOk, Rejected, Fits, HasRead, CommitTo, CommittedEntries;
    var call := Top(s, a.t);
    assert CallOk(env, s.store, s.owner, s.nextId, a.t, call);
    hide ThreadsOk;
  }

  lemma {:induction false} ReleaseOk(env: Env, s: System, a: Action)
    requires Safe(env, s) && Enabled(env, s, a) && a.Release?
    ensures TopStep(env, s, Effect(env, s, a), a.t)
  {
    hide Admitted, StoreOk, Rejected, Fits, HasRead;
    var call := Top(s, a.t);
    assert CallOk(env, s.store, s.owner, s.nextId, a.t, call);
    hide ThreadsOk;
  }

  lemma {:induction false} AuditOk(env: Env, s: System, a: Action)
    requires Safe(env, s) && Enabled(env, s, a) && a.Audit?
    ensures TopStep(env, s, Effect(env, s, a), a.t)
  {
    hide Admitted, StoreOk, Rejected, Fits, HasRead, RecordCount, RecordFor;
    var call := Top(s, a.t);
    assert CallOk(env, s.store, s.owner, s.nextId, a.t, call);
    hide ThreadsOk;
  }

  /** The actions that move the top call of a thread from one phase to another. */
  predicate MovesTop(a: Action) {
    !a.Begin? && !a.Return? && !a.SetAvailable?
  }

  lemma {:induction false} MoveIsTopStep(env: Env, s: System, a: Action)
    requires Safe(env, s) && Enabled(env, s, a) && MovesTop(a)
    ensures TopStep(env, s, Effect(env, s, a), a.t)
  {
    hide Effect, Enabled, Safe, TopStep;
    match a {
      case Acquire(_) => AcquireOk(env, s, a);
      case Capture(_, _) => CaptureOk(env, s, a);
      case Decide(_) => DecideOk(env, s, a);
      case Write(_) => WriteOk(env, s, a);
      case Release(_) => ReleaseOk(env, s, a);
      case Audit(_) => AuditOk(env, s, a);
      case _ => FinishOk(env, s, a);
    }
  }

  /** Such a step is disciplined and leaves the lower calls where they are. */
  lemma {:induction false} TopStepStays(env: Env, s: System, r: System, t: ThreadId)
    requires TopStep(env, s, r, t)
    ensures Stack(r, t) != [] && CallOk(env, r.store, r.owner, r.nextId, t, Top(r, t))
    ensures Disciplined(s, r, t)
    ensures Stack(r, t) == Stack(s, t)[..|Stack(s, t)| - 1] + [Top(r, t)]
  {
    hide CallOk;
    RetoppedStack(s, r, t, Top(r, t).phase);
  }

  /** Only a write changes the store. */
  lemma StoreAfter(env: Env, s: System, a: Action)
    requires Enabled(env, s, a)
    ensures !a.Write? ==> Effect(env, s, a).store == s.store
    ensures a.Write? ==>
              && Stack(s, a.t) != [] && Top(s, a.t).phase.Checked?
              && Effect(env, s, a).store == CommitTo(env.make, s.availability, s.store, Top(s, a.t).request).store
  {
    hide Admitted, Scan, Initial, CommitTo, CommittedEntries, FirstOperationError, RecordFor, RecordCount, Rejected,
         CollectionsOf, TargetAvailable, StoreOf;
  }

  lemma StackIsOk(env: Env, s: System, t: ThreadId)
    requires ThreadsOk(env, s) && Stack(s, t) != []
    ensures StackOk(env, s.store, s.owner, s.nextId, t, Stack(s, t))
  {
    hide StackOk;
  }

  lemma TopIsOk(env: Env, s: System, t: ThreadId)
    requires Stack(s, t) != [] && StackOk(env, s.store, s.owner, s.nextId, t, Stack(s, t))
    ensures CallOk(env, s.store, s.owner, s.nextId, t, Top(s, t))
  {
    hide CallOk;
  }

  lemma {:induction false} StepKeepsStoreOk(env: Env, s: System, a: Action)
    requires Safe(env, s) && Enabled(env, s, a)
    ensures StoreOk(env, Effect(env, s, a).store)
  {
    StoreAfter(env, s, a);
    if a.Write? {
      hide Effect, Enabled, StoreOk, ThreadsOk, StackOk, Admitted, CommitTo, Fits;
      StackIsOk(env, s, a.t);
      TopIsOk(env, s, a.t);
      WriteKeepsStoreOk(env, s.availability, s.store, Top(s, a.t));
    }
    hide *;
  }

  lemma {:induction false} BeginKeepsThreadsOk(env: Env, s: System, a: Action)
    requires Safe(env, s) && Enabled(env, s, a) && a.Begin?
    ensures ThreadsOk(env, Effect(env, s, a))
  {
    hide Admitted, StoreOk, Fits, HasRead;
    var r := Effect(env, s, a);
    var stack := Stack(s, a.t);
    if stack != [] {
      LowerCallsUndisturbed(env, s, a.t, r.store, r.owner, r.nextId, Top(s, a.t));
      assert stack == stack[..|stack| - 1] + [Top(s, a.t)];
    }
    assert StackOk(env, r.store, r.owner, r.nextId, a.t, Stack(r, a.t));
    forall u | u in r.threads && u != a.t ensures StackOk(env, r.store, r.owner, r.nextId, u, r.threads[u]) {
      OthersUndisturbed(env, s, r, a.t, u);
    }
  }

  /** A disciplined step that leaves its own thread well keeps every thread well. */
  lemma {:induction false} ThreadsStayOk(env: Env, s: System, r: System, t: ThreadId)
    requires ThreadsOk(env, s) && Disciplined(s, r, t)
    requires StackOk(env, r.store, r.owner, r.nextId, t, Stack(r, t))
    ensures ThreadsOk(env, r)
  {
    hide StackOk, Disciplined;
    forall u | u in r.threads ensures StackOk(env, r.store, r.owner, r.nextId, u, r.threads[u]) {
      if u != t {
        hide ThreadsOk;
        OthersUndisturbed(env, s, r, t, u);
      }
    }
  }

  lemma {:induction false} MoveKeepsThreadsOk(env: Env, s: System, a: Action)
    requires Safe(env, s) && Enabled(env, s, a) && MovesTop(a)
    ensures ThreadsOk(env, Effect(env, s, a))
  {
    hide Effect, Enabled, ThreadsOk, StoreOk, StackOk, CallOk, Disciplined;
    var r := Effect(env, s, a);
    MoveIsTopStep(env, s, a);
    TopStepStays(env, s, r, a.t);
    StackIsOk(env, s, a.t);
    LowerCallsUndisturbed(env, s, a.t, r.store, r.owner, r.nextId, Top(r, a.t));
    ThreadsStayOk(env, s, r, a.t);
  }

  lemma EffectOfReturn(env: Env, s: System, a: Action)
    requires Enabled(env, s, a) && a.Return?
    ensures var r := Effect(env, s, a);
            && Stack(s, a.t) != [] && Stack(r, a.t) == Stack(s, a.t)[..|Stack(s, a.t)| - 1]
            && r.store == s.store && r.owner == s.owner && r.nextId == s.nextId && Disciplined(s, r, a.t)
  {
    hide RecordCount;
  }

  lemma {:induction false} ReturnKeepsThreadsOk(env: Env, s: System, a: Action)
    requires Safe(env, s) && Enabled(env, s, a) && a.Return?
    ensures ThreadsOk(env, Effect(env, s, a))
  {
    EffectOfReturn(env, s, a);
    hide Effect, Enabled, ThreadsOk, StoreOk, StackOk, CallOk, Disciplined;
    var r := Effect(env, s, a);
    StackIsOk(env, s, a.t);
    TopIsOk(env, s, a.t);
    LowerCallsUndisturbed(env, s, a.t, r.store, r.owner, r.nextId, Top(s, a.t));
    ThreadsStayOk(env, s, r, a.t);
  }

  lemma {:induction false} AvailabilityKeepsThreadsOk(env: Env, s: System, a: Action)
    requires Safe(env, s) && a.SetAvailable?
    ensures ThreadsOk(env, Effect(env, s, a))
  {
    hide StackOk, StoreOk;
  }

  /** Every action keeps the whole invariant. */
  lemma {:induction false} StepSafe(env: Env, s: System, a: Action)
    requires Safe(env, s)
    ensures Safe(env, Next(env, s, a))
  {
    hide Enabled, Effect, ThreadsOk, StoreOk;
    if Enabled(env, s, a) {
      StepKeepsStoreOk(env, s, a);
      match a
      case Begin(_, _, _) => BeginKeepsThreadsOk(env, s, a);
      case Return(_) => ReturnKeepsThreadsOk(env, s, a);
      case SetAvailable(_, _) => AvailabilityKeepsThreadsOk(env, s, a);
      case _ => MoveKeepsThreadsOk(env, s, a);
    }
  }

  lemma {:induction false} RunSafe(env: Env, start: System, actions: seq<Action>)
    requires Safe(env, start)
    ensures Safe(env, Run(env, start, actions))
  {
    hide Safe, Next;
    if actions != [] {
      RunSafe(env, start, actions[..|actions| - 1]);
      StepSafe(env, Run(env, start, actions[..|actions| - 1]), actions[|actions| - 1]);
    }
  }

  /** Over every interleaving of any number of callers, with listeners and audit sinks
      making arbitrary nested calls, no collection ever holds more than the permitted
      number of keys, and every stored key, value, name and target is valid. */
  lemma {:induction false} LimitsHoldInEveryRun(
    env: Env, store: Store, availability: Availability, actions: seq<Action>)
    requires GoodStore(env.limits, store) && WithinLimit(store, env.limits.maxPropertiesPerCollection)
    ensures var s := Run(env, Start(store, availability), actions);
            GoodStore(env.limits, s.store) && WithinLimit(s.store, env.limits.maxPropertiesPerCollection)
  {
    RunSafe(env, Start(store, availability), actions);
  }
}
