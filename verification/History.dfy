/** The history of a run: every applied operation, in commit order, fits its
    neighbours, was authorised, and met the expectations it carried. */
module History {
  import opened Types
  import opened Store
  import opened StoreLaws
  import opened Validation
  import opened Commit
  import opened Protocol
  import opened Simulator
  import AccessPolicy
  import Safety

  /** What holds of one applied operation by itself. */
  ghost predicate EntryOk(make: SnapshotMaker, e: Entry) {
    && Perform(e.before, e.op) == Done(e.after)
    && e.result.Ok()
    && e.result.before == SnapshotsIn(make, e.before, Distinct(OperationCollections(e.op)))
    && e.result.after == SnapshotsIn(make, e.after, Distinct(OperationCollections(e.op)))
    && (forall ref :: Names(e.op, ref) ==> AccessPolicy.CanAccess(e.service.prefix, e.context, ref))
    && (if e.force then e.context.rawAdmin else GuardsMet(make, e.before, e.op))
  }

  /** Every expectation that is read equals the revision the operation found. */
  ghost predicate GuardsMet(make: SnapshotMaker, store: Store, op: Operation) {
    forall ref, revision :: ReadsGuard(op, ref, revision) ==> SnapshotIn(make, store, ref).revision == revision
  }

  /** A history leads from one store to another without a gap. */
  ghost predicate Chained(make: SnapshotMaker, start: Store, history: seq<Entry>, end: Store) {
    && (forall i :: 0 <= i < |history| ==> EntryOk(make, history[i]))
    && (history == [] ==> start == end)
    && (history != [] ==> history[0].before == start && history[|history| - 1].after == end)
    && (forall i :: 0 <= i < |history| - 1 ==> history[i].after == history[i + 1].before)
  }

  lemma ChainConcat(make: SnapshotMaker, start: Store, a: seq<Entry>, middle: Store, b: seq<Entry>, end: Store)
    requires Chained(make, start, a, middle) && Chained(make, middle, b, end)
    ensures Chained(make, start, a + b, end)
  {
    hide EntryOk;
    var h := a + b;
    forall i | 0 <= i < |h| - 1 ensures h[i].after == h[i + 1].before {
      if i < |a| - 1 {
        assert h[i] == a[i] && h[i + 1] == a[i + 1];
      } else if i >= |a| {
        assert h[i] == b[i - |a|] && h[i + 1] == b[i + 1 - |a|];
      }
    }
  }

  /** Every result of a transaction, up to and including the first failure, is that of
      its operation on the evolving candidate. */
  lemma {:induction false} RunAllResults(
    make: SnapshotMaker, availability: Availability, store: Store, ops: seq<Operation>, force: bool, i: nat)
    requires i < |RunAll(make, availability, store, ops, force).results|
    ensures |RunAll(make, availability, store, ops, force).results| <= |ops|
    ensures PerformAll(store, ops[..i]).Done?
    ensures RunAll(make, availability, store, ops, force).results[i]
         == ApplyTo(make, availability, PerformAll(store, ops[..i]).store, ops[i], force).result
    decreases |ops|
  {
    hide Perform, ApplyTo;
    var n := |ops| - 1;
    RunAllIsFold(make, availability, store, ops[..n], force);
    RunAllIsFold(make, availability, store, ops, force);
    var front := RunAll(make, availability, store, ops[..n], force);
    if i < |front.results| {
      RunAllResults(make, availability, store, ops[..n], force, i);
      assert ops[..n][..i] == ops[..i];
    }
  }

  /** The result of operation `i` of an applied request. */
  lemma {:induction false} CommittedResult(env: Env, availability: Availability, store: Store, request: Request, i: nat)
    requires request.kind.Single? ==> |request.operations| == 1
    requires i < |request.operations| && CommitTo(env.make, availability, store, request).settled.status == Applied
    ensures PerformAll(store, request.operations[..i]).Done?
    ensures |CommitTo(env.make, availability, store, request).settled.results| == |request.operations|
    ensures CommitTo(env.make, availability, store, request).settled.results[i]
         == ApplyTo(env.make, availability, PerformAll(store, request.operations[..i]).store,
                    request.operations[i], request.force).result
  {
    hide Perform, ApplyTo, RunAll;
    if request.kind.Single? {
      assert request.operations[..0] == [];
    } else {
      RunAllIsFold(env.make, availability, store, request.operations, request.force);
      RunAllResults(env.make, availability, store, request.operations, request.force, i);
    }
  }

  lemma {:induction false} AppliedGuardsMet(
    make: SnapshotMaker, availability: Availability, store: Store, op: Operation)
    requires ApplyTo(make, availability, store, op, false).result.Ok()
    ensures GuardsMet(make, store, op)
  {
    hide Perform, ApplyTo, ReadsGuard;
    forall ref, revision | ReadsGuard(op, ref, revision)
      ensures SnapshotIn(make, store, ref).revision == revision
    {
      GuardsHonoured(make, availability, store, op, ref, revision);
    }
  }

  lemma {:induction false} ValidatedAccess(service: Service, context: AccessContext, op: Operation, ref: CollectionRef)
    requires ValidateOperation(service, context, op).None? && Names(op, ref)
    ensures AccessPolicy.CanAccess(service.prefix, context, ref)
  {
    NamedIsGood(service, context, op, ref);
  }

  lemma {:induction false} AppliedEntryOk(env: Env, availability: Availability, e: Entry, a: Applying)
    requires a == ApplyTo(env.make, availability, e.before, e.op, e.force)
    requires a.result.Ok() && e.result == a.result && e.after == a.store
    requires ValidateOperation(e.service, e.context, e.op).None? && (e.force ==> e.context.rawAdmin)
    ensures EntryOk(env.make, e)
  {
    hide Perform, ApplyTo, ValidateOperation, Names, SnapshotsIn, Distinct, OperationCollections, GuardsMet,
         AccessPolicy.CanAccess;
    AppliedMeans(env.make, availability, e.before, e.op, e.force, a,
                 Distinct(OperationCollections(e.op)), Perform(e.before, e.op));
    forall ref | Names(e.op, ref) ensures AccessPolicy.CanAccess(e.service.prefix, e.context, ref) {
      ValidatedAccess(e.service, e.context, e.op, ref);
    }
    if !e.force { AppliedGuardsMet(env.make, availability, e.before, e.op); }
  }

  /** One step of a fold that ends well. */
  lemma {:induction false} FoldStep(store: Store, ops: seq<Operation>, n: nat)
    requires 0 < n <= |ops| && PerformAll(store, ops[..n]).Done?
    ensures PerformAll(store, ops[..n - 1]).Done?
    ensures Perform(PerformAll(store, ops[..n - 1]).store, ops[n - 1]) == PerformAll(store, ops[..n])
  {
    hide Perform;
    assert ops[..n][..n - 1] == ops[..n - 1];
  }

  /** The entry for operation `i` of an applied request is in order. */
  lemma {:induction false} OperationEntryOk(
    env: Env, availability: Availability, store: Store, call: Call, c: Committing, i: nat, e: Entry)
    requires Admitted(call.service, call.request) && i < |call.request.operations|
    requires c == CommitTo(env.make, availability, store, call.request) && c.settled.status == Applied
    requires |c.settled.results| == |call.request.operations|
    requires PerformAll(store, call.request.operations[..i]).Done?
    requires PerformAll(store, call.request.operations[..i + 1]).Done?
    requires e == Entry(call.id, call.service, call.request.context, call.request.force, call.request.operations[i],
                        PerformAll(store, call.request.operations[..i]).store,
                        PerformAll(store, call.request.operations[..i + 1]).store, c.settled.results[i])
    ensures EntryOk(env.make, e)
  {
    var ops := call.request.operations;
    AdmittedOperations(call.service, call.request);
    AdmittedIff(call.service, call.request);
    FoldStep(store, ops, i + 1);
    CommittedResult(env, availability, store, call.request, i);
    CommitAllOrNothing(env.make, availability, store, call.request);
    var a := ApplyTo(env.make, availability, e.before, e.op, e.force);
    hide Perform, ApplyTo, CommitTo, PerformAll, Admitted, ValidateOperation, Distinct, OperationCollections, EntryOk,
         SelfMove;
    AppliedMeans(env.make, availability, e.before, e.op, e.force, a,
                 Distinct(OperationCollections(e.op)), Perform(e.before, e.op));
    AppliedEntryOk(env, availability, e, a);
  }

  lemma {:induction false} EntriesChain(
    env: Env, availability: Availability, store: Store, call: Call, c: Committing, n: nat)
    requires Admitted(call.service, call.request) && n <= |call.request.operations|
    requires c == CommitTo(env.make, availability, store, call.request) && c.settled.status == Applied
    requires |c.settled.results| == |call.request.operations|
    requires PerformAll(store, call.request.operations[..n]).Done?
    ensures Chained(env.make, store, EntriesOf(call, store, c.settled.results, n),
                    PerformAll(store, call.request.operations[..n]).store)
  {
    hide Perform, CommitTo, EntryOk, Admitted;
    var ops, results := call.request.operations, c.settled.results;
    if n == 0 {
      assert ops[..0] == [];
    } else {
      FoldStep(store, ops, n);
      EntriesChain(env, availability, store, call, c, n - 1);
      var before, after := PerformAll(store, ops[..n - 1]).store, PerformAll(store, ops[..n]).store;
      var e := Entry(call.id, call.service, call.request.context, call.request.force, ops[n - 1], before, after,
                     results[n - 1]);
      OperationEntryOk(env, availability, store, call, c, n - 1, e);
      hide PerformAll;
      assert Chained(env.make, before, [e], after);
      ChainConcat(env.make, store, EntriesOf(call, store, results, n - 1), before, [e], after);
    }
  }

  /** Whatever a call commits extends the chain. */
  lemma {:induction false} CommitChains(env: Env, availability: Availability, store: Store, call: Call)
    requires Admitted(call.service, call.request)
    ensures Chained(env.make, store, CommittedEntries(env, availability, store, call),
                    CommitTo(env.make, availability, store, call.request).store)
  {
    var ops := call.request.operations;
    CommitAllOrNothing(env.make, availability, store, call.request);
    assert ops[..|ops|] == ops;
    var c := CommitTo(env.make, availability, store, call.request);
    if c.settled.status == Applied {
      EntriesChain(env, availability, store, call, c, |ops|);
    }
    hide Perform, CommitTo, EntryOk, PerformAll, Admitted;
  }

  // Whole runs

  ghost predicate HistoryOk(env: Env, start: Store, s: System) {
    Safety.Safe(env, s) && Chained(env.make, start, s.history, s.store)
  }

  lemma {:induction false} StepKeepsHistory(env: Env, start: Store, s: System, a: Action)
    requires HistoryOk(env, start, s)
    ensures HistoryOk(env, start, Next(env, s, a))
  {
    Safety.StepSafe(env, s, a);
    if Enabled(env, s, a) && a.Write? {
      var call := Top(s, a.t);
      assert Safety.CallOk(env, s.store, s.owner, s.nextId, a.t, call);
      CommitChains(env, s.availability, s.store, call);
      ChainConcat(env.make, start, s.history, s.store, CommittedEntries(env, s.availability, s.store, call),
                  CommitTo(env.make, s.availability, s.store, call.request).store);
    }
    hide Chained, Safety.Safe, CommittedEntries, CommitTo, Scan, Initial, RecordFor, RecordCount, Admitted,
         FirstOperationError, CollectionsOf, Rejected;
  }

  lemma {:induction false} RunKeepsHistory(env: Env, start: Store, availability: Availability, actions: seq<Action>)
    requires Safety.StoreOk(env, start)
    ensures HistoryOk(env, start, Run(env, Start(start, availability), actions))
  {
    if actions == [] {
      assert HistoryOk(env, start, Start(start, availability));
    } else {
      var n := |actions| - 1;
      RunKeepsHistory(env, start, availability, actions[..n]);
      StepKeepsHistory(env, start, Run(env, Start(start, availability), actions[..n]), actions[n]);
      hide HistoryOk, Next, Start;
    }
  }

  function OpsOf(history: seq<Entry>): (ops: seq<Operation>)
    ensures |ops| == |history|
  {
    seq(|history|, i requires 0 <= i < |history| => history[i].op)
  }

  /** The store is the left fold of the committed operations. */
  lemma {:induction false} StoreIsFold(make: SnapshotMaker, start: Store, history: seq<Entry>, end: Store)
    requires Chained(make, start, history, end)
    ensures PerformAll(start, OpsOf(history)) == Done(end)
  {
    hide Perform, GuardsMet, AccessPolicy.CanAccess, Distinct, OperationCollections, SnapshotsIn;
    var ops := OpsOf(history);
    if history != [] {
      var n := |history| - 1;
      assert EntryOk(make, history[n]);
      assert n > 0 ==> history[n - 1].after == history[n].before;
      StoreIsFold(make, start, history[..n], history[n].before);
      assert ops[..n] == OpsOf(history[..n]);
    }
  }

  /** Between two neighbours nothing touches the collection in between. */
  lemma {:induction false} UntouchedBetween(
    make: SnapshotMaker, start: Store, history: seq<Entry>, end: Store, i: nat, j: nat, ref: CollectionRef)
    requires Chained(make, start, history, end)
    requires i < j < |history| && forall k :: i < k < j ==> !Names(history[k].op, ref)
    ensures SameAt(history[i].after, history[j].before, ref)
  {
    hide Perform, Names, GuardsMet, AccessPolicy.CanAccess, Distinct, OperationCollections;
    if i + 1 < j {
      UntouchedBetween(make, start, history, end, i, j - 1, ref);
      assert EntryOk(make, history[j - 1]);
      Frame(history[j - 1].before, history[j - 1].op, ref);
      assert history[j - 1].after == history[j].before;
    }
  }

  /** The snapshots an entry reports for the collection at position `x`. */
  lemma EntrySnapshots(make: SnapshotMaker, e: Entry, x: nat)
    requires EntryOk(make, e) && x < |Distinct(OperationCollections(e.op))|
    ensures |e.result.before| == |Distinct(OperationCollections(e.op))| == |e.result.after|
    ensures e.result.before[x] == SnapshotIn(make, e.before, Distinct(OperationCollections(e.op))[x])
    ensures e.result.after[x] == SnapshotIn(make, e.after, Distinct(OperationCollections(e.op))[x])
  {
    hide Perform, Names, GuardsMet, AccessPolicy.CanAccess, Distinct, OperationCollections;
  }

  /** Linear history: in commit order, the `after` snapshot that one operation
      reports for a collection is the `before` snapshot that the next operation
      touching it reports, within and across transactions and callers. */
  lemma {:induction false} LinearHistory(
    env: Env, start: Store, availability: Availability, actions: seq<Action>,
    i: nat, j: nat, ref: CollectionRef, x: nat, y: nat)
    requires Safety.StoreOk(env, start)
    requires var h := Run(env, Start(start, availability), actions).history;
             && i < j < |h|
             && x < |Distinct(OperationCollections(h[i].op))| && Distinct(OperationCollections(h[i].op))[x] == ref
             && y < |Distinct(OperationCollections(h[j].op))| && Distinct(OperationCollections(h[j].op))[y] == ref
             && forall k :: i < k < j ==> !Names(h[k].op, ref)
    ensures var h := Run(env, Start(start, availability), actions).history;
            && |h[i].result.after| == |Distinct(OperationCollections(h[i].op))|
            && |h[j].result.before| == |Distinct(OperationCollections(h[j].op))|
            && h[i].result.after[x] == h[j].result.before[y]
  {
    hide Run, Start, Perform, Names, Distinct, OperationCollections, Safety.Safe, Safety.StoreOk, EntryOk;
    var s := Run(env, Start(start, availability), actions);
    RunKeepsHistory(env, start, availability, actions);
    EntrySnapshots(env.make, s.history[i], x);
    EntrySnapshots(env.make, s.history[j], y);
    UntouchedBetween(env.make, start, s.history, s.store, i, j, ref);
  }

  /** The store of every run is the fold of what was committed, and every commit
      was authorised and honoured its expectations. */
  lemma {:induction false} HistoryExplainsStore(
    env: Env, start: Store, availability: Availability, actions: seq<Action>)
    requires Safety.StoreOk(env, start)
    ensures var s := Run(env, Start(start, availability), actions);
            && PerformAll(start, OpsOf(s.history)) == Done(s.store)
            && forall i :: 0 <= i < |s.history| ==> EntryOk(env.make, s.history[i])
  {
    var s := Run(env, Start(start, availability), actions);
    RunKeepsHistory(env, start, availability, actions);
    hide Run, Start, Perform, EntryOk, Safety.Safe, PerformAll;
    StoreIsFold(env.make, start, s.history, s.store);
    hide OpsOf;
  }

  /** Two unforced commits guarded by one captured revision of a collection both
      found that revision: whatever was committed in between left or restored it. */
  lemma {:induction false} GuardedCommits(
    env: Env, start: Store, availability: Availability, actions: seq<Action>,
    i: nat, j: nat, ref: CollectionRef, revision: Word64)
    requires Safety.StoreOk(env, start)
    requires var h := Run(env, Start(start, availability), actions).history;
             && i < j < |h| && !h[i].force && !h[j].force
             && ReadsGuard(h[i].op, ref, revision) && ReadsGuard(h[j].op, ref, revision)
    ensures var h := Run(env, Start(start, availability), actions).history;
            && SnapshotIn(env.make, h[i].before, ref).revision == revision
            && SnapshotIn(env.make, h[j].before, ref).revision == revision
  {
    var s := Run(env, Start(start, availability), actions);
    HistoryExplainsStore(env, start, availability, actions);
    hide Run, Start, Perform, PerformAll, Safety.StoreOk, ReadsGuard;
    assert EntryOk(env.make, s.history[i]) && EntryOk(env.make, s.history[j]);
  }

  /** If nothing in a history touches a collection, it is what it was. */
  lemma {:induction false} UntouchedOverall(
    make: SnapshotMaker, start: Store, history: seq<Entry>, end: Store, ref: CollectionRef)
    requires Chained(make, start, history, end)
    requires forall i :: 0 <= i < |history| ==> !Names(history[i].op, ref)
    ensures SameAt(start, end, ref)
  {
    hide Perform, Names;
    if history != [] {
      var n := |history| - 1;
      assert EntryOk(make, history[n]) && EntryOk(make, history[0]);
      Frame(history[n].before, history[n].op, ref);
      if n > 0 {
        UntouchedBetween(make, start, history, end, 0, n, ref);
        Frame(history[0].before, history[0].op, ref);
      }
    }
  }

  /** A property of callers that every request of a run has. */
  ghost predicate AllBegins(actions: seq<Action>, p: (Service, AccessContext) -> bool) {
    forall i :: 0 <= i < |actions| && actions[i].Begin? ==> p(actions[i].service, actions[i].request.context)
  }

  ghost predicate AllCallers(s: System, p: (Service, AccessContext) -> bool) {
    && (forall t, i :: t in s.threads && 0 <= i < |s.threads[t]| ==>
          p(s.threads[t][i].service, s.threads[t][i].request.context))
    && (forall e :: e in s.history ==> p(e.service, e.context))
  }

  lemma {:induction false} EntryCallers(call: Call, store: Store, results: seq<OperationResult>, n: nat)
    requires n <= |call.request.operations| && n <= |results|
    requires PerformAll(store, call.request.operations[..n]).Done?
    ensures forall e :: e in EntriesOf(call, store, results, n) ==>
              e.service == call.service && e.context == call.request.context
  {
    hide PerformAll;
    if n > 0 {
      FoldStep(store, call.request.operations, n);
      EntryCallers(call, store, results, n - 1);
    }
  }

  lemma {:induction false} CommitCallers(env: Env, availability: Availability, store: Store, call: Call)
    requires call.request.kind.Single? ==> |call.request.operations| == 1
    ensures forall e :: e in CommittedEntries(env, availability, store, call) ==>
              e.service == call.service && e.context == call.request.context
  {
    var ops := call.request.operations;
    var c := CommitTo(env.make, availability, store, call.request);
    CommitAllOrNothing(env.make, availability, store, call.request);
    assert ops[..|ops|] == ops;
    if c.settled.status == Applied { EntryCallers(call, store, c.settled.results, |ops|); }
    hide CommitTo, PerformAll, EntriesOf;
  }

  lemma TopCaller(s: System, t: ThreadId, p: (Service, AccessContext) -> bool)
    requires AllCallers(s, p) && Stack(s, t) != []
    ensures p(Top(s, t).service, Top(s, t).request.context)
  {
    assert s.threads[t][|Stack(s, t)| - 1] == Top(s, t);
  }

  /** The actions that move the top call keep every other call, and only a write
      extends the history. */
  lemma EffectOfMove(env: Env, s: System, a: Action)
    requires Enabled(env, s, a) && Safety.MovesTop(a)
    ensures var r := Effect(env, s, a);
            && Stack(s, a.t) != [] && Stack(r, a.t) != []
            && r.threads == WithTop(s, a.t, Top(r, a.t).phase).threads
            && (a.Write? ==> (Top(s, a.t).request.kind.Single? ==> |Top(s, a.t).request.operations| == 1))
            && r.history == if a.Write? then s.history + CommittedEntries(env, s.availability, s.store, Top(s, a.t))
                            else s.history
  {
    hide CommittedEntries, CommitTo, Scan, Initial, RecordFor, RecordCount, FirstOperationError, CollectionsOf,
         Rejected, TargetAvailable, StoreOf;
  }

  lemma {:induction false} TopKeepsCallers(
    s: System, r: System, t: ThreadId, phase: Phase, entries: seq<Entry>, p: (Service, AccessContext) -> bool)
    requires AllCallers(s, p) && Stack(s, t) != []
    requires r.threads == WithTop(s, t, phase).threads && r.history == s.history + entries
    requires forall e :: e in entries ==> p(e.service, e.context)
    ensures AllCallers(r, p)
  {
    TopCaller(s, t, p);
    forall u, i | u in r.threads && 0 <= i < |r.threads[u]|
      ensures p(r.threads[u][i].service, r.threads[u][i].request.context)
    {
      if u != t || i < |Stack(s, t)| - 1 {
        assert r.threads[u][i] == s.threads[u][i];
      }
    }
  }

  lemma {:induction false} MoveKeepsCallers(env: Env, s: System, a: Action, p: (Service, AccessContext) -> bool)
    requires AllCallers(s, p) && Enabled(env, s, a) && Safety.MovesTop(a)
    ensures AllCallers(Effect(env, s, a), p)
  {
    hide Enabled, Effect, AllCallers, WithTop, CommittedEntries;
    EffectOfMove(env, s, a);
    var r, call := Effect(env, s, a), Top(s, a.t);
    TopCaller(s, a.t, p);
    if a.Write? {
      CommitCallers(env, s.availability, s.store, call);
      TopKeepsCallers(s, r, a.t, Top(r, a.t).phase, CommittedEntries(env, s.availability, s.store, call), p);
    } else {
      assert s.history + [] == s.history;
      TopKeepsCallers(s, r, a.t, Top(r, a.t).phase, [], p);
    }
  }

  lemma {:induction false} StepKeepsCallers(env: Env, s: System, a: Action, p: (Service, AccessContext) -> bool)
    requires AllCallers(s, p) && (a.Begin? ==> p(a.service, a.request.context))
    ensures AllCallers(Next(env, s, a), p)
  {
    hide Admitted, RecordCount;
    if Safety.MovesTop(a) {
      hide Enabled, Effect, AllCallers;
      if Enabled(env, s, a) { MoveKeepsCallers(env, s, a, p); }
    }
  }

  lemma {:induction false} RunKeepsCallers(
    env: Env, start: Store, availability: Availability, actions: seq<Action>, p: (Service, AccessContext) -> bool)
    requires AllBegins(actions, p)
    ensures AllCallers(Run(env, Start(start, availability), actions), p)
  {
    if actions == [] {
    } else {
      var n := |actions| - 1;
      RunKeepsCallers(env, start, availability, actions[..n], p);
      StepKeepsCallers(env, Run(env, Start(start, availability), actions[..n]), actions[n], p);
      hide AllCallers, Next, Start;
    }
  }

  /** A caller that is no administrator and has another identity than `owner`
      within the namespace `prefix`. */
  predicate Foreign(prefix: string, owner: AccessContext, service: Service, context: AccessContext) {
    && !context.rawAdmin && AccessPolicy.IsNormal(service.prefix)
    && !(service.prefix == prefix && AccessPolicy.Normalize(context.pluginId) == AccessPolicy.Normalize(owner.pluginId))
  }

  /** Namespace isolation over whole runs: however many requests are made, as long
      as none comes from an administrator or from a caller with the identity of
      plugin `owner`, no collection that plugin can access changes. */
  lemma {:induction false} NamespaceIsolation(
    env: Env, start: Store, availability: Availability, actions: seq<Action>,
    prefix: string, owner: AccessContext, ref: CollectionRef)
    requires Safety.StoreOk(env, start)
    requires AccessPolicy.IsNormal(prefix) && !owner.rawAdmin && AccessPolicy.CanAccess(prefix, owner, ref)
    requires forall i :: 0 <= i < |actions| && actions[i].Begin? ==>
               Foreign(prefix, owner, actions[i].service, actions[i].request.context)
    ensures SameAt(start, Run(env, Start(start, availability), actions).store, ref)
  {
    var s := Run(env, Start(start, availability), actions);
    RunKeepsHistory(env, start, availability, actions);
    RunKeepsCallers(env, start, availability, actions, (service, context) => Foreign(prefix, owner, service, context));
    hide Run, Start, Perform, Names, Safety.Safe, Safety.StoreOk, Foreign, AccessPolicy.CanAccess;
    forall i | 0 <= i < |s.history| ensures !Names(s.history[i].op, ref) {
      var e := s.history[i];
      assert e in s.history;
      assert EntryOk(env.make, e) && Foreign(prefix, owner, e.service, e.context);
      NotForeign(e, prefix, owner, ref);
    }
    UntouchedOverall(env.make, start, s.history, s.store, ref);
  }

  lemma {:induction false} NotForeign(e: Entry, prefix: string, owner: AccessContext, ref: CollectionRef)
    requires AccessPolicy.IsNormal(prefix) && !owner.rawAdmin && AccessPolicy.CanAccess(prefix, owner, ref)
    requires Foreign(prefix, owner, e.service, e.context)
    ensures !AccessPolicy.CanAccess(e.service.prefix, e.context, ref)
  {
    if AccessPolicy.CanAccess(e.service.prefix, e.context, ref) {
      AccessPolicy.PrefixesSeparate(prefix, owner.pluginId, e.service.prefix, e.context.pluginId, ref.collection);
    }
  }
}
