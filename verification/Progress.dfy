/** Callbacks run outside the mutex, so the protocol never blocks: whoever holds the
    mutex can go on, and when nobody does, every caller can. */
module Progress {
  import opened Types
  import opened Store
  import opened Validation
  import opened Commit
  import opened Protocol
  import opened Simulator
  import AuditTrail
  import Safety

  /** The holder of the mutex is inside its critical section. */
  predicate HolderIsCritical(s: System) {
    s.owner.Some? ==> Stack(s, s.owner.value) != [] && Critical(Top(s, s.owner.value).phase)
  }

  /** A step of the holder. */
  lemma {:induction false} HolderStep(env: Env, s: System, a: Action)
    requires HolderIsCritical(s) && Enabled(env, s, a)
    requires !a.Begin? && !a.Return? && !a.SetAvailable?
    ensures HolderIsCritical(Effect(env, s, a))
  {
    hide CommitTo, CommittedEntries, Scan, Initial, FirstOperationError, Rejected, RecordFor, RecordCount,
         CollectionsOf, TargetAvailable, StoreOf;
    var r := Effect(env, s, a);
    assert Top(r, a.t).phase == r.threads[a.t][|r.threads[a.t]| - 1].phase;
  }

  lemma {:induction false} HolderStaysCritical(env: Env, s: System, a: Action)
    requires HolderIsCritical(s)
    ensures HolderIsCritical(Next(env, s, a))
  {
    hide CommitTo, CommittedEntries, Scan, Initial, FirstOperationError, Rejected, RecordFor, RecordCount,
         CollectionsOf, TargetAvailable, StoreOf, Admitted;
    if Enabled(env, s, a) && !a.Begin? && !a.Return? && !a.SetAvailable? { HolderStep(env, s, a); }
  }

  lemma {:induction false} RunKeepsHolderCritical(
    env: Env, store: Store, availability: Availability, actions: seq<Action>)
    ensures HolderIsCritical(Run(env, Start(store, availability), actions))
  {
    hide Next;
    if actions != [] {
      var n := |actions| - 1;
      RunKeepsHolderCritical(env, store, availability, actions[..n]);
      HolderStaysCritical(env, Run(env, Start(store, availability), actions[..n]), actions[n]);
      hide HolderIsCritical;
    }
  }

  /** The thread can take the next step of its innermost call. */
  ghost predicate CanStep(env: Env, s: System, t: ThreadId) {
    exists a :: Continues(a, t) && Enabled(env, s, a)
  }

  predicate Continues(a: Action, t: ThreadId) {
    !a.Begin? && !a.SetAvailable? && a.t == t
  }

  lemma Continuing(env: Env, s: System, t: ThreadId, a: Action)
    requires Continues(a, t) && Enabled(env, s, a)
    ensures CanStep(env, s, t)
  {
    hide Enabled, Continues;
  }

  /** While reading. */
  lemma {:induction false} ReaderCanStep(env: Env, s: System, t: ThreadId, refs: set<CollectionRef>)
    requires Stack(s, t) != [] && Top(s, t).phase.Capturing?
    requires refs == CollectionsOf(Top(s, t).request.operations) && Top(s, t).phase.seen.Keys <= refs
    ensures CanStep(env, s, t)
  {
    var seen := Top(s, t).phase.seen;
    hide CanStep, CollectionsOf;
    if seen.Keys == refs {
      Continuing(env, s, t, Decide(t));
    } else {
      var ref :| ref in refs && ref !in seen;
      Continuing(env, s, t, Capture(t, ref));
    }
  }

  /** Inside the critical section. */
  lemma {:induction false} CriticalCanStep(env: Env, s: System, t: ThreadId)
    requires Stack(s, t) != [] && Critical(Top(s, t).phase)
    requires Safety.CallOk(env, s.store, s.owner, s.nextId, t, Top(s, t))
    requires Top(s, t).request.kind.Single? ==> |Top(s, t).request.operations| == 1
    ensures CanStep(env, s, t)
  {
    hide Admitted, Safety.Fits, CanStep, CollectionsOf, Effect;
    var call := Top(s, t);
    match call.phase
    case Capturing(_) => ReaderCanStep(env, s, t, CollectionsOf(call.request.operations));
    case Checked => Continuing(env, s, t, Write(t));
    case Writing(_) => Continuing(env, s, t, Release(t));
  }

  /** Outside it. */
  lemma {:induction false} OutsideCanStep(env: Env, s: System, t: ThreadId)
    requires Stack(s, t) != [] && !Critical(Top(s, t).phase)
    requires Top(s, t).phase.Waiting? ==> s.owner.None?
    requires var call := Top(s, t);
             call.phase.Auditing? ==> call.phase.done <= RecordCount(call.request, call.phase.settled)
    ensures CanStep(env, s, t)
  {
    var call := Top(s, t);
    hide CanStep, RecordCount;
    match call.phase
    case PublishingBefore => Continuing(env, s, t, FinishBefore(t, false));
    case Waiting => Continuing(env, s, t, Acquire(t));
    case PublishingAfter(_) => Continuing(env, s, t, FinishAfter(t));
    case Auditing(settled, done) =>
      if done < RecordCount(call.request, settled) {
        Continuing(env, s, t, Audit(t));
      } else {
        Continuing(env, s, t, Return(t));
      }
  }

  /** A call can go on unless it waits for a mutex that is held. */
  lemma {:induction false} TopCanStep(env: Env, s: System, t: ThreadId)
    requires Stack(s, t) != [] && (Top(s, t).phase.Waiting? ==> s.owner.None?)
    requires Safety.CallOk(env, s.store, s.owner, s.nextId, t, Top(s, t))
    requires AuditTrail.CallAudited(s.log, s.history, Top(s, t))
    ensures CanStep(env, s, t)
  {
    hide Admitted, Safety.CallOk, CanStep, RecordCount, AuditTrail.Settles, AuditTrail.Wrote, AuditTrail.CommittedBy,
         AuditTrail.RecordsOf, AuditTrail.Expected;
    if Critical(Top(s, t).phase) { CriticalCanStep(env, s, t); } else { OutsideCanStep(env, s, t); }
  }

  lemma HolderDoesNotWait(s: System, t: ThreadId)
    requires HolderIsCritical(s) && s.owner == Some(t)
    ensures Stack(s, t) != [] && !Top(s, t).phase.Waiting?
  {
  }

  /** In a state that satisfies the invariants. */
  lemma {:induction false} CallerCanStep(env: Env, s: System, t: ThreadId)
    requires Safety.Safe(env, s) && AuditTrail.Audited(s)
    requires Stack(s, t) != [] && (Top(s, t).phase.Waiting? ==> s.owner.None?)
    ensures CanStep(env, s, t)
  {
    hide CanStep, Safety.StoreOk, AuditTrail.IdsDistinct, AuditTrail.Unused, AuditTrail.ReturnsAudited, Safety.CallOk,
         AuditTrail.CallAudited;
    assert s.threads[t][|s.threads[t]| - 1] == Top(s, t);
    TopCanStep(env, s, t);
  }

  /** No deadlock: in every reachable state the thread that holds the mutex can take
      its next step, every thread whose innermost call does not wait for the mutex
      can, and when no thread holds it, every thread with a call can. */
  lemma {:induction false} NoDeadlock(
    env: Env, store: Store, availability: Availability, actions: seq<Action>, t: ThreadId)
    requires Safety.StoreOk(env, store)
    ensures var s := Run(env, Start(store, availability), actions);
            && (s.owner == Some(t) ==> CanStep(env, s, t))
            && (Stack(s, t) != [] && (s.owner.None? || !Top(s, t).phase.Waiting?) ==> CanStep(env, s, t))
  {
    var s := Run(env, Start(store, availability), actions);
    Safety.RunSafe(env, Start(store, availability), actions);
    AuditTrail.RunKeepsAudited(env, store, availability, actions);
    RunKeepsHolderCritical(env, store, availability, actions);
    hide Run, Safety.Safe, CanStep, AuditTrail.Audited, HolderIsCritical;
    if s.owner == Some(t) { HolderDoesNotWait(s, t); }
    if Stack(s, t) != [] && (s.owner.None? || !Top(s, t).phase.Waiting?) { CallerCanStep(env, s, t); }
  }

  /** The mutex is never taken twice by one thread: a thread that waits for it does
      not hold it, however deeply its listeners and audit sink have called back. */
  lemma {:induction false} NeverTakenTwice(
    env: Env, store: Store, availability: Availability, actions: seq<Action>, t: ThreadId)
    ensures var s := Run(env, Start(store, availability), actions);
            Enabled(env, s, Acquire(t)) ==> s.owner.None?
  {
    RunKeepsHolderCritical(env, store, availability, actions);
    hide Run, Start;
  }
}
