/** The audit log over whole runs: every finished call has exactly the records it
    owes, under its own identifier, and wrote exactly what it reports. */
module AuditTrail {
  import opened Types
  import opened Store
  import opened StoreLaws
  import opened Commit
  import opened Protocol
  import opened Simulator
  import opened Validation
  import History
  import Safety

  /** The records of one call, oldest first. */
  function RecordsOf(log: seq<Record>, id: CallId): seq<Record> {
    if log == [] then []
    else
      var n := |log| - 1;
      RecordsOf(log[..n], id) + (if log[n].call == id then [log[n]] else [])
  }

  /** The entries of one call, oldest first. */
  function EntriesBy(history: seq<Entry>, id: CallId): seq<Entry> {
    if history == [] then []
    else
      var n := |history| - 1;
      EntriesBy(history[..n], id) + (if history[n].call == id then [history[n]] else [])
  }

  /** The operations one call committed, oldest first. */
  function CommittedBy(history: seq<Entry>, id: CallId): seq<Operation> {
    History.OpsOf(EntriesBy(history, id))
  }

  /** ... and their results. */
  function ResultsBy(history: seq<Entry>, id: CallId): seq<OperationResult> {
    ResultsOf(EntriesBy(history, id))
  }

  function ResultsOf(entries: seq<Entry>): (results: seq<OperationResult>)
    ensures |results| == |entries|
  {
    seq(|entries|, i requires 0 <= i < |entries| => entries[i].result)
  }

  lemma RecordAppended(log: seq<Record>, r: Record, id: CallId)
    ensures RecordsOf(log + [r], id) == RecordsOf(log, id) + (if r.call == id then [r] else [])
  {
    assert (log + [r])[..|log|] == log;
  }

  lemma {:induction false} EntriesAppended(history: seq<Entry>, more: seq<Entry>, call: CallId, id: CallId)
    requires forall i :: 0 <= i < |more| ==> more[i].call == call
    ensures EntriesBy(history + more, id) == EntriesBy(history, id) + (if call == id then more else [])
  {
    if more == [] {
      assert history + more == history;
    } else {
      hide EntriesBy;
      var n := |more| - 1;
      EntriesAppended(history, more[..n], call, id);
      EntryAppended(history + more[..n], more[n], id);
      LastRegrouped(history, more);
      LastRegrouped(EntriesBy(history, id), if call == id then more else [more[n]]);
    }
  }

  lemma LastRegrouped(front: seq<Entry>, more: seq<Entry>)
    requires more != []
    ensures front + more == front + more[..|more| - 1] + [more[|more| - 1]]
  {
  }

  lemma EntryAppended(history: seq<Entry>, e: Entry, id: CallId)
    ensures EntriesBy(history + [e], id) == EntriesBy(history, id) + (if e.call == id then [e] else [])
  {
    assert (history + [e])[..|history|] == history;
  }

  /** The shape of a settled request: rejected as a whole, applied as a whole, or
      refused by the adapter at its last reported operation. */
  predicate Settles(request: Request, settled: Settled) {
    var n, m := |request.operations|, |settled.results|;
    && (settled.rolledBack <==>
          settled.attempted && settled.status != Applied && request.kind.Atomic? && request.kind.rollbackOnFailure)
    && if !settled.attempted then
      m == n && settled.status != Applied && forall i :: 0 <= i < m ==> settled.results[i].status == settled.status
    else if settled.status == Applied then
      m == n && forall i :: 0 <= i < m ==> settled.results[i].status == Applied
    else
      && 0 < m <= n
      && (if request.kind.Single? then settled.results[0].status == settled.status
          else settled.status == TransactionFailed)
      && settled.results[m - 1].status != Applied
      && forall i :: 0 <= i < m - 1 ==> settled.results[i].status == Applied
  }

  /** The operations a settled request put into the store. */
  function Wrote(request: Request, settled: Settled): seq<Operation> {
    if settled.attempted && settled.status == Applied then request.operations else []
  }

  /** The results the history holds for it. */
  function Kept(settled: Settled): seq<OperationResult> {
    if settled.attempted && settled.status == Applied then settled.results else []
  }

  function Expected(id: CallId, request: Request, settled: Settled, n: nat): seq<Record>
    requires n <= RecordCount(request, settled)
  {
    seq(n, i requires 0 <= i < n => RecordFor(id, request, settled, i))
  }

  predicate HasSettled(phase: Phase) {
    phase.Writing? || phase.PublishingAfter? || phase.Auditing?
  }

  /** What the log and the history hold for a call that is still running. */
  predicate CallAudited(log: seq<Record>, history: seq<Entry>, call: Call) {
    && (call.request.kind.Single? ==> |call.request.operations| == 1)
    && (if HasSettled(call.phase)
        then Settles(call.request, call.phase.settled)
             && CommittedBy(history, call.id) == Wrote(call.request, call.phase.settled)
             && ResultsBy(history, call.id) == Kept(call.phase.settled)
        else EntriesBy(history, call.id) == [])
    && (if call.phase.Auditing?
        then call.phase.done <= RecordCount(call.request, call.phase.settled)
             && RecordsOf(log, call.id) == Expected(call.id, call.request, call.phase.settled, call.phase.done)
        else RecordsOf(log, call.id) == [])
  }

  /** ... and for one that has returned. */
  predicate ReturnAudited(log: seq<Record>, history: seq<Entry>, id: CallId, r: Returned) {
    && Settles(r.request, r.settled)
    && CommittedBy(history, id) == Wrote(r.request, r.settled)
    && ResultsBy(history, id) == Kept(r.settled)
    && RecordsOf(log, id) == Expected(id, r.request, r.settled, RecordCount(r.request, r.settled))
  }

  predicate Unused(log: seq<Record>, history: seq<Entry>, nextId: CallId) {
    && (forall i :: 0 <= i < |log| ==> log[i].call < nextId)
    && (forall i :: 0 <= i < |history| ==> history[i].call < nextId)
  }

  /** Identifiers are given out once. */
  predicate IdsDistinct(s: System) {
    && (forall t, u, i, j ::
          t in s.threads && u in s.threads && 0 <= i < |s.threads[t]| && 0 <= j < |s.threads[u]| ==>
          s.threads[t][i].id == s.threads[u][j].id ==> t == u && i == j)
    && (forall t, i :: t in s.threads && 0 <= i < |s.threads[t]| ==>
          s.threads[t][i].id < s.nextId && s.threads[t][i].id !in s.returned)
    && (forall id :: id in s.returned ==> id < s.nextId)
  }

  predicate CallsAudited(s: System) {
    forall t, i :: t in s.threads && 0 <= i < |s.threads[t]| ==> CallAudited(s.log, s.history, s.threads[t][i])
  }

  predicate ReturnsAudited(s: System) {
    forall id :: id in s.returned ==> ReturnAudited(s.log, s.history, id, s.returned[id])
  }

  predicate Audited(s: System) {
    IdsDistinct(s) && Unused(s.log, s.history, s.nextId) && CallsAudited(s) && ReturnsAudited(s)
  }

  lemma {:induction false} FreshId(log: seq<Record>, history: seq<Entry>, nextId: CallId)
    requires Unused(log, history, nextId)
    ensures RecordsOf(log, nextId) == [] && EntriesBy(history, nextId) == []
  {
    NoRecords(log, nextId);
    NoEntries(history, nextId);
  }

  lemma {:induction false} NoRecords(log: seq<Record>, id: CallId)
    requires forall i :: 0 <= i < |log| ==> log[i].call != id
    ensures RecordsOf(log, id) == []
  {
    if log != [] { NoRecords(log[..|log| - 1], id); }
  }

  lemma {:induction false} NoEntries(history: seq<Entry>, id: CallId)
    requires forall i :: 0 <= i < |history| ==> history[i].call != id
    ensures EntriesBy(history, id) == []
  {
    if history != [] { NoEntries(history[..|history| - 1], id); }
  }

  /** What a step adds to the log and the history belongs to the call that steps. */
  predicate AddsFor(s: System, r: System, id: CallId, records: seq<Record>, entries: seq<Entry>) {
    && r.log == s.log + records && |records| <= 1 && (forall i :: 0 <= i < |records| ==> records[i].call == id)
    && r.history == s.history + entries && (forall i :: 0 <= i < |entries| ==> entries[i].call == id)
  }

  lemma {:induction false} AddsForOne(
    s: System, r: System, id: CallId, records: seq<Record>, entries: seq<Entry>, other: CallId)
    requires AddsFor(s, r, id, records, entries)
    ensures RecordsOf(r.log, other) == RecordsOf(s.log, other) + (if other == id then records else [])
    ensures EntriesBy(r.history, other) == EntriesBy(s.history, other) + (if other == id then entries else [])
  {
    EntriesAppended(s.history, entries, id, other);
    if records == [] {
      assert s.log + records == s.log;
    } else {
      assert records == [records[0]];
      RecordAppended(s.log, records[0], other);
    }
  }

  /** Calls and returned calls other than the one that steps are not affected. */
  lemma {:induction false} OthersAudited(
    s: System, r: System, t: ThreadId, records: seq<Record>, entries: seq<Entry>, u: ThreadId, i: nat)
    requires Audited(s) && Stack(s, t) != [] && AddsFor(s, r, Top(s, t).id, records, entries)
    requires u in s.threads && i < |s.threads[u]| && !(u == t && i == |Stack(s, t)| - 1)
    ensures CallAudited(r.log, r.history, s.threads[u][i])
  {
    hide RecordsOf, EntriesBy, AddsFor, Unused, Settles, Wrote, Kept, Expected, RecordCount, ReturnAudited, CallAudited;
    var other := s.threads[u][i];
    assert s.threads[t][|Stack(s, t)| - 1] == Top(s, t);
    assert other.id != Top(s, t).id;
    AddsForOther(s, r, Top(s, t).id, records, entries, other.id);
    SameCallAudited(s, r, other);
  }

  /** Nothing is added for another identifier. */
  lemma AddsForOther(
    s: System, r: System, id: CallId, records: seq<Record>, entries: seq<Entry>, other: CallId)
    requires AddsFor(s, r, id, records, entries) && other != id
    ensures RecordsOf(r.log, other) == RecordsOf(s.log, other)
    ensures EntriesBy(r.history, other) == EntriesBy(s.history, other)
  {
    hide RecordsOf, EntriesBy, AddsFor;
    AddsForOne(s, r, id, records, entries, other);
    assert RecordsOf(s.log, other) + [] == RecordsOf(s.log, other);
    assert EntriesBy(s.history, other) + [] == EntriesBy(s.history, other);
  }

  lemma SameCallAudited(s: System, r: System, call: Call)
    requires CallAudited(s.log, s.history, call)
    requires RecordsOf(r.log, call.id) == RecordsOf(s.log, call.id)
    requires EntriesBy(r.history, call.id) == EntriesBy(s.history, call.id)
    ensures CallAudited(r.log, r.history, call)
  {
    hide RecordsOf, EntriesBy, Settles, Wrote, Kept, Expected, RecordCount;
  }

  lemma {:induction false} ReturnsStayAudited(
    s: System, r: System, t: ThreadId, records: seq<Record>, entries: seq<Entry>, id: CallId)
    requires Audited(s) && Stack(s, t) != [] && AddsFor(s, r, Top(s, t).id, records, entries)
    requires id in s.returned
    ensures ReturnAudited(r.log, r.history, id, s.returned[id])
  {
    hide RecordsOf, EntriesBy, AddsFor, Unused, Settles, Wrote, Kept, Expected, RecordCount, ReturnAudited, CallAudited;
    assert s.threads[t][|Stack(s, t)| - 1] == Top(s, t);
    assert ReturnAudited(s.log, s.history, id, s.returned[id]);
    AddsForOther(s, r, Top(s, t).id, records, entries, id);
    SameReturnAudited(s, r, id, s.returned[id]);
  }

  lemma SameReturnAudited(s: System, r: System, id: CallId, returned: Returned)
    requires ReturnAudited(s.log, s.history, id, returned)
    requires RecordsOf(r.log, id) == RecordsOf(s.log, id) && EntriesBy(r.history, id) == EntriesBy(s.history, id)
    ensures ReturnAudited(r.log, r.history, id, returned)
  {
    hide RecordsOf, EntriesBy, Settles, Wrote, Kept, Expected, RecordCount;
  }

  /** A step that replaces the top phase and adds records or entries of that call. */
  predicate TopStep(s: System, r: System, t: ThreadId, phase: Phase, records: seq<Record>, entries: seq<Entry>) {
    && Stack(s, t) != []
    && r.threads == WithTop(s, t, phase).threads && r.nextId == s.nextId && r.returned == s.returned
    && AddsFor(s, r, Top(s, t).id, records, entries)
    && CallAudited(r.log, r.history, Top(s, t).(phase := phase))
  }

  /** Changing the phase of a call changes no identifier. */
  lemma {:induction false} SameIds(
    s: System, r: System, t: ThreadId, phase: Phase, records: seq<Record>, entries: seq<Entry>, u: ThreadId, i: nat)
    requires TopStep(s, r, t, phase, records, entries) && u in r.threads && i < |r.threads[u]|
    ensures u in s.threads && |s.threads[u]| == |r.threads[u]| && r.threads[u][i].id == s.threads[u][i].id
  {
    hide CallAudited, AddsFor;
  }

  lemma {:induction false} StaysUnused(
    s: System, r: System, id: CallId, records: seq<Record>, entries: seq<Entry>)
    requires Unused(s.log, s.history, s.nextId) && r.nextId == s.nextId && id < s.nextId
    requires AddsFor(s, r, id, records, entries)
    ensures Unused(r.log, r.history, r.nextId)
  {
  }

  lemma {:induction false} TopStepKeepsIds(
    s: System, r: System, t: ThreadId, phase: Phase, records: seq<Record>, entries: seq<Entry>)
    requires Audited(s) && TopStep(s, r, t, phase, records, entries)
    ensures IdsDistinct(r) && Unused(r.log, r.history, r.nextId)
  {
    hide CallAudited, CallsAudited, ReturnsAudited, WithTop, Unused, AddsFor;
    assert s.threads[t][|Stack(s, t)| - 1] == Top(s, t);
    StaysUnused(s, r, Top(s, t).id, records, entries);
    forall u, i | u in r.threads && 0 <= i < |r.threads[u]|
      ensures u in s.threads && |s.threads[u]| == |r.threads[u]| && r.threads[u][i].id == s.threads[u][i].id
    {
      SameIds(s, r, t, phase, records, entries, u, i);
    }
  }

  lemma {:induction false} TopStepKeepsAudited(
    s: System, r: System, t: ThreadId, phase: Phase, records: seq<Record>, entries: seq<Entry>)
    requires Audited(s) && TopStep(s, r, t, phase, records, entries)
    ensures Audited(r)
  {
    TopStepKeepsIds(s, r, t, phase, records, entries);
    forall u, i | u in r.threads && 0 <= i < |r.threads[u]| ensures CallAudited(r.log, r.history, r.threads[u][i]) {
      if u == t && i == |Stack(s, t)| - 1 {
        assert r.threads[u][i] == Top(s, t).(phase := phase);
      } else {
        OthersAudited(s, r, t, records, entries, u, i);
        assert r.threads[u][i] == s.threads[u][i];
      }
    }
    forall id | id in r.returned ensures ReturnAudited(r.log, r.history, id, r.returned[id]) {
      ReturnsStayAudited(s, r, t, records, entries, id);
    }
    hide CallAudited, ReturnAudited, AddsFor, IdsDistinct, Unused;
  }

  /** Entries of a commit carry its identifier and list its operations. */
  lemma {:induction false} EntriesOfCall(call: Call, store: Store, results: seq<OperationResult>, n: nat)
    requires n <= |call.request.operations| && n <= |results|
    requires PerformAll(store, call.request.operations[..n]).Done?
    ensures var entries := EntriesOf(call, store, results, n);
            && History.OpsOf(entries) == call.request.operations[..n] && ResultsOf(entries) == results[..n]
            && forall i :: 0 <= i < n ==> entries[i].call == call.id
  {
    hide PerformAll;
    if n > 0 {
      History.FoldStep(store, call.request.operations, n);
      EntriesOfCall(call, store, results, n - 1);
      assert call.request.operations[..n] == call.request.operations[..n - 1] + [call.request.operations[n - 1]];
      assert results[..n] == results[..n - 1] + [results[n - 1]];
    }
  }

  lemma {:induction false} CommitEntries(env: Env, availability: Availability, store: Store, call: Call)
    requires call.request.kind.Single? ==> |call.request.operations| == 1
    ensures var c := CommitTo(env.make, availability, store, call.request);
            var entries := CommittedEntries(env, availability, store, call);
            && Settles(call.request, c.settled)
            && History.OpsOf(entries) == Wrote(call.request, c.settled)
            && ResultsOf(entries) == Kept(c.settled)
            && forall i :: 0 <= i < |entries| ==> entries[i].call == call.id
  {
    hide CommitTo, PerformAll, EntriesOf, Settles;
    var ops := call.request.operations;
    var c := CommitTo(env.make, availability, store, call.request);
    CommitSettles(env.make, availability, store, call.request);
    CommitAllOrNothing(env.make, availability, store, call.request);
    assert ops[..|ops|] == ops && c.settled.results[..|c.settled.results|] == c.settled.results;
    if c.settled.status == Applied { EntriesOfCall(call, store, c.settled.results, |ops|); }
  }

  lemma CommitSettles(make: SnapshotMaker, availability: Availability, store: Store, request: Request)
    requires request.kind.Single? ==> |request.operations| == 1
    ensures Settles(request, CommitTo(make, availability, store, request).settled)
    ensures CommitTo(make, availability, store, request).settled.attempted
  {
    hide ApplyTo, TransactOn, PerformAll;
    CommitAllOrNothing(make, availability, store, request);
    if request.kind.Atomic? {
      TransactAllOrNothing(make, availability, store,
                           Transaction(request.operations, request.force, request.kind.rollbackOnFailure,
                                       request.kind.requireAtomic));
    }
  }

  lemma RejectedSettles(request: Request, status: Status)
    requires status != Applied
    ensures Settles(request, Rejected(request, status))
    ensures Wrote(request, Rejected(request, status)) == [] && Kept(Rejected(request, status)) == []
    ensures !Rejected(request, status).attempted
  {
  }

  /** A change of phase that settles nothing, keeps what is settled, or rejects
      the whole request. */
  predicate PhaseChange(call: Call, phase: Phase) {
    && !call.phase.Auditing?
    && (phase.Auditing? ==> phase.done == 0)
    && if !HasSettled(phase) then !HasSettled(call.phase)
       else if HasSettled(call.phase) then phase.settled == call.phase.settled
       else phase.settled.status != Applied && phase.settled == Rejected(call.request, phase.settled.status)
  }

  lemma {:induction false} PhaseChangeAudited(log: seq<Record>, history: seq<Entry>, call: Call, phase: Phase)
    requires CallAudited(log, history, call) && PhaseChange(call, phase)
    ensures CallAudited(log, history, call.(phase := phase))
  {
    if HasSettled(phase) && !HasSettled(call.phase) {
      RejectedSettles(call.request, phase.settled.status);
    }
    hide Settles, Wrote, Rejected, RecordCount, RecordsOf, EntriesBy, Kept;
  }

  /** The actions that only move the top call to another phase. */
  predicate MovesPhase(a: Action) {
    a.FinishBefore? || a.Acquire? || a.Capture? || a.Decide? || a.Release? || a.FinishAfter?
  }

  predicate PhaseMoved(s: System, r: System, t: ThreadId) {
    && Stack(s, t) != [] && Stack(r, t) != []
    && r.threads == WithTop(s, t, Top(r, t).phase).threads
    && r.nextId == s.nextId && r.returned == s.returned && r.log == s.log && r.history == s.history
    && PhaseChange(Top(s, t), Top(r, t).phase)
  }

  lemma {:induction false} PhaseOfReading(env: Env, s: System, a: Action)
    requires Enabled(env, s, a) && (a.FinishBefore? || a.Acquire? || a.Capture?)
    ensures PhaseMoved(s, Effect(env, s, a), a.t)
  {
    hide Admitted, FirstOperationError, StoreOf, CollectionsOf, TargetAvailable;
  }

  lemma {:induction false} PhaseOfSettling(env: Env, s: System, a: Action)
    requires Enabled(env, s, a) && (a.Decide? || a.Release? || a.FinishAfter?)
    ensures PhaseMoved(s, Effect(env, s, a), a.t)
  {
    hide Admitted, Scan, Initial, StoreOf, CollectionsOf;
  }

  lemma {:induction false} PhaseOfStep(env: Env, s: System, a: Action)
    requires Enabled(env, s, a) && MovesPhase(a)
    ensures PhaseMoved(s, Effect(env, s, a), a.t)
  {
    hide Effect, Enabled, PhaseMoved;
    if a.FinishBefore? || a.Acquire? || a.Capture? {
      PhaseOfReading(env, s, a);
    } else {
      PhaseOfSettling(env, s, a);
    }
  }

  lemma {:induction false} PhaseStep(env: Env, s: System, a: Action)
    requires Audited(s) && Enabled(env, s, a) && MovesPhase(a)
    ensures TopStep(s, Effect(env, s, a), a.t, Top(Effect(env, s, a), a.t).phase, [], [])
  {
    hide PhaseChange, Effect, Enabled, CallAudited, IdsDistinct, ReturnsAudited, Unused, WithTop;
    PhaseOfStep(env, s, a);
    var call := Top(s, a.t);
    var r := Effect(env, s, a);
    assert s.threads[a.t][|Stack(s, a.t)| - 1] == call;
    assert CallAudited(s.log, s.history, call);
    hide CallsAudited;
    PhaseChangeAudited(s.log, s.history, call, Top(r, a.t).phase);
    assert s.log + [] == s.log && s.history + [] == s.history;
  }

  lemma {:induction false} WrittenAudited(
    env: Env, availability: Availability, store: Store, log: seq<Record>, history: seq<Entry>, call: Call)
    requires CallAudited(log, history, call) && call.phase.Checked?
    ensures CallAudited(log, history + CommittedEntries(env, availability, store, call),
                        call.(phase := Writing(CommitTo(env.make, availability, store, call.request).settled)))
    ensures forall i :: 0 <= i < |CommittedEntries(env, availability, store, call)| ==>
              CommittedEntries(env, availability, store, call)[i].call == call.id
  {
    hide CommitTo, CommittedEntries, RecordsOf, EntriesBy, RecordCount, Settles, Wrote, Kept;
    CommitEntries(env, availability, store, call);
    EntriesAppended(history, CommittedEntries(env, availability, store, call), call.id, call.id);
  }

  lemma {:induction false} EffectOfWrite(env: Env, s: System, a: Action)
    requires Enabled(env, s, a) && a.Write?
    ensures Stack(s, a.t) != [] && Top(s, a.t).phase.Checked?
    ensures Top(s, a.t).request.kind.Single? ==> |Top(s, a.t).request.operations| == 1
    ensures var r, call := Effect(env, s, a), Top(s, a.t);
            var phase := Writing(CommitTo(env.make, s.availability, s.store, call.request).settled);
            && r.threads == WithTop(s, a.t, phase).threads
            && Stack(r, a.t) != [] && Top(r, a.t).phase == phase
            && r.nextId == s.nextId && r.returned == s.returned && r.log == s.log
            && r.history == s.history + CommittedEntries(env, s.availability, s.store, call)
  {
    hide CommitTo, CommittedEntries;
  }

  lemma {:induction false} WriteStep(env: Env, s: System, a: Action)
    requires Audited(s) && Enabled(env, s, a) && a.Write?
    requires Stack(s, a.t) != []
    requires Top(s, a.t).request.kind.Single? ==> |Top(s, a.t).request.operations| == 1
    ensures TopStep(s, Effect(env, s, a), a.t, Top(Effect(env, s, a), a.t).phase, [],
                    CommittedEntries(env, s.availability, s.store, Top(s, a.t)))
  {
    EffectOfWrite(env, s, a);
    hide Effect, Enabled, CommitTo, CommittedEntries, CallAudited, IdsDistinct, ReturnsAudited, Unused, WithTop;
    var call := Top(s, a.t);
    assert s.threads[a.t][|Stack(s, a.t)| - 1] == call;
    assert CallAudited(s.log, s.history, call);
    hide CallsAudited;
    WrittenAudited(env, s.availability, s.store, s.log, s.history, call);
    assert s.log + [] == s.log;
  }

  lemma {:induction false} RecordedAudited(log: seq<Record>, history: seq<Entry>, call: Call)
    requires CallAudited(log, history, call) && call.phase.Auditing?
    requires call.phase.done < RecordCount(call.request, call.phase.settled)
    ensures CallAudited(log + [RecordFor(call.id, call.request, call.phase.settled, call.phase.done)], history,
                        call.(phase := call.phase.(done := call.phase.done + 1)))
  {
    var record := RecordFor(call.id, call.request, call.phase.settled, call.phase.done);
    RecordAppended(log, record, call.id);
    assert Expected(call.id, call.request, call.phase.settled, call.phase.done) + [record]
        == Expected(call.id, call.request, call.phase.settled, call.phase.done + 1);
    hide Settles, Wrote, RecordsOf, CommittedBy, Expected;
  }

  lemma {:induction false} EffectOfAudit(env: Env, s: System, a: Action)
    requires Enabled(env, s, a) && a.Audit?
    ensures var r, call := Effect(env, s, a), Top(s, a.t);
            && r.threads == WithTop(s, a.t, call.phase.(done := call.phase.done + 1)).threads
            && Stack(r, a.t) != [] && Top(r, a.t).phase == call.phase.(done := call.phase.done + 1)
            && r.nextId == s.nextId && r.returned == s.returned && r.history == s.history
            && r.log == s.log + [RecordFor(call.id, call.request, call.phase.settled, call.phase.done)]
  {
    hide RecordFor, RecordCount;
  }

  lemma {:induction false} RecordingTopStep(s: System, r: System, t: ThreadId, call: Call, record: Record)
    requires Stack(s, t) != [] && call == Top(s, t) && CallAudited(s.log, s.history, call) && call.phase.Auditing?
    requires call.phase.done < RecordCount(call.request, call.phase.settled)
    requires record == RecordFor(call.id, call.request, call.phase.settled, call.phase.done)
    requires r.threads == WithTop(s, t, call.phase.(done := call.phase.done + 1)).threads
    requires r.nextId == s.nextId && r.returned == s.returned && r.history == s.history && r.log == s.log + [record]
    ensures TopStep(s, r, t, call.phase.(done := call.phase.done + 1), [record], [])
  {
    RecordedAudited(s.log, s.history, call);
    assert record.call == call.id;
    assert s.history + [] == s.history;
    hide CallAudited, RecordCount, RecordFor, WithTop;
  }

  lemma {:induction false} AuditStep(env: Env, s: System, a: Action)
    requires Audited(s) && Enabled(env, s, a) && a.Audit?
    ensures Audited(Effect(env, s, a))
  {
    hide RecordsOf, CommittedBy, Expected, Settles, Wrote, RecordCount, RecordFor, WithTop, TopStep, IdsDistinct,
         Unused, ReturnsAudited;
    var call := Top(s, a.t);
    assert s.threads[a.t][|Stack(s, a.t)| - 1] == call;
    assert CallAudited(s.log, s.history, call);
    hide CallAudited, Audited;
    EffectOfAudit(env, s, a);
    var record := RecordFor(call.id, call.request, call.phase.settled, call.phase.done);
    var r := Effect(env, s, a);
    RecordingTopStep(s, r, a.t, call, record);
    hide Effect, Enabled;
    TopStepKeepsAudited(s, r, a.t, call.phase.(done := call.phase.done + 1), [record], []);
  }

  /** A new call on top of a thread. */
  predicate Pushed(s: System, r: System, t: ThreadId, call: Call) {
    && r.threads == s.threads[t := Stack(s, t) + [call]]
    && call.id == s.nextId && r.nextId == s.nextId + 1
    && r.log == s.log && r.history == s.history && r.returned == s.returned
  }

  lemma {:induction false} PushedCalls(s: System, r: System, t: ThreadId, call: Call, u: ThreadId, i: nat)
    requires Pushed(s, r, t, call) && u in r.threads && i < |r.threads[u]|
    ensures if u == t && i == |Stack(s, t)| then r.threads[u][i] == call
            else u in s.threads && i < |s.threads[u]| && r.threads[u][i] == s.threads[u][i]
  {
  }

  lemma {:induction false} PushKeepsIds(s: System, r: System, t: ThreadId, call: Call)
    requires IdsDistinct(s) && Pushed(s, r, t, call)
    ensures IdsDistinct(r)
  {
    forall u, i | u in r.threads && 0 <= i < |r.threads[u]|
      ensures if u == t && i == |Stack(s, t)| then r.threads[u][i] == call
              else u in s.threads && i < |s.threads[u]| && r.threads[u][i] == s.threads[u][i]
    {
      PushedCalls(s, r, t, call, u, i);
    }
    hide Pushed;
    assert r.nextId == s.nextId + 1;
  }

  lemma {:induction false} PushKeepsAudited(s: System, r: System, t: ThreadId, call: Call)
    requires Audited(s) && Pushed(s, r, t, call) && CallAudited(s.log, s.history, call)
    ensures Audited(r)
  {
    PushKeepsIds(s, r, t, call);
    hide CallAudited, ReturnAudited, IdsDistinct;
    forall u, i | u in r.threads && 0 <= i < |r.threads[u]| ensures CallAudited(r.log, r.history, r.threads[u][i]) {
      PushedCalls(s, r, t, call, u, i);
    }
  }

  lemma EffectOfBegin(env: Env, s: System, a: Action)
    requires Enabled(env, s, a) && a.Begin?
    ensures a.request.kind.Single? ==> |a.request.operations| == 1
    ensures Pushed(s, Effect(env, s, a), a.t, Call(s.nextId, a.service, a.request, PublishingBefore))
  {
  }

  lemma NewCallAudited(log: seq<Record>, history: seq<Entry>, call: Call)
    requires Unused(log, history, call.id) && call.phase.PublishingBefore?
    requires call.request.kind.Single? ==> |call.request.operations| == 1
    ensures CallAudited(log, history, call)
  {
    FreshId(log, history, call.id);
  }

  lemma {:induction false} BeginStep(env: Env, s: System, a: Action)
    requires Audited(s) && Enabled(env, s, a) && a.Begin?
    ensures Audited(Effect(env, s, a))
  {
    EffectOfBegin(env, s, a);
    hide Effect, Enabled, Pushed, CallAudited, Unused, IdsDistinct, CallsAudited, ReturnsAudited;
    var call := Call(s.nextId, a.service, a.request, PublishingBefore);
    NewCallAudited(s.log, s.history, call);
    PushKeepsAudited(s, Effect(env, s, a), a.t, call);
  }

  /** The top call of a thread returns. */
  predicate Popped(s: System, r: System, t: ThreadId) {
    && Stack(s, t) != []
    && Top(s, t).phase.Auditing?
    && Top(s, t).phase.done == RecordCount(Top(s, t).request, Top(s, t).phase.settled)
    && r.threads == s.threads[t := Stack(s, t)[..|Stack(s, t)| - 1]] && r.nextId == s.nextId
    && r.log == s.log && r.history == s.history
    && r.returned == s.returned[Top(s, t).id := Returned(Top(s, t).request, Top(s, t).phase.settled)]
  }

  lemma EffectOfReturn(env: Env, s: System, a: Action)
    requires Enabled(env, s, a) && a.Return?
    ensures Popped(s, Effect(env, s, a), a.t)
  {
    hide RecordCount;
  }

  lemma {:induction false} PoppedCalls(s: System, r: System, t: ThreadId, u: ThreadId, i: nat)
    requires Popped(s, r, t) && u in r.threads && i < |r.threads[u]|
    ensures u in s.threads && i < |s.threads[u]| && r.threads[u][i] == s.threads[u][i]
    ensures !(u == t && i == |Stack(s, t)| - 1)
  {
    hide RecordCount;
  }

  lemma {:induction false} PopKeepsIds(s: System, r: System, t: ThreadId)
    requires IdsDistinct(s) && Popped(s, r, t)
    ensures IdsDistinct(r)
  {
    hide RecordCount;
    assert s.threads[t][|Stack(s, t)| - 1] == Top(s, t);
    forall u, i | u in r.threads && 0 <= i < |r.threads[u]|
      ensures u in s.threads && i < |s.threads[u]| && r.threads[u][i] == s.threads[u][i]
      ensures !(u == t && i == |Stack(s, t)| - 1)
    {
      PoppedCalls(s, r, t, u, i);
    }
  }

  lemma ReturnedIsAudited(s: System, r: System, t: ThreadId)
    requires CallsAudited(s) && Popped(s, r, t)
    ensures ReturnAudited(r.log, r.history, Top(s, t).id, r.returned[Top(s, t).id])
  {
    hide Settles, Wrote, RecordCount, RecordsOf, EntriesBy, Kept, Expected;
    var call := Top(s, t);
    assert s.threads[t][|Stack(s, t)| - 1] == call && CallAudited(s.log, s.history, call);
  }

  lemma {:induction false} PopKeepsAudited(s: System, r: System, t: ThreadId)
    requires Audited(s) && Popped(s, r, t)
    ensures Audited(r)
  {
    PopKeepsIds(s, r, t);
    ReturnedIsAudited(s, r, t);
    hide CallAudited, ReturnAudited, IdsDistinct, RecordCount;
    forall u, i | u in r.threads && 0 <= i < |r.threads[u]| ensures CallAudited(r.log, r.history, r.threads[u][i]) {
      PoppedCalls(s, r, t, u, i);
    }
  }

  lemma {:induction false} ReturnStep(env: Env, s: System, a: Action)
    requires Audited(s) && Enabled(env, s, a) && a.Return?
    ensures Audited(Effect(env, s, a))
  {
    hide Effect, Enabled, Audited, Popped;
    EffectOfReturn(env, s, a);
    PopKeepsAudited(s, Effect(env, s, a), a.t);
  }

  lemma AvailabilityStep(env: Env, s: System, a: Action)
    requires Audited(s) && a.SetAvailable?
    ensures Audited(Effect(env, s, a))
  {
    hide CallAudited, ReturnAudited;
  }

  lemma {:induction false} StepKeepsAudited(env: Env, s: System, a: Action)
    requires Audited(s)
    ensures Audited(Next(env, s, a))
  {
    hide Effect, Enabled, Audited, TopStep, CommittedEntries, WithTop;
    if Enabled(env, s, a) {
      var r := Effect(env, s, a);
      match a
      case Begin(_, _, _) => BeginStep(env, s, a);
      case Return(_) => ReturnStep(env, s, a);
      case SetAvailable(_, _) => AvailabilityStep(env, s, a);
      case Write(t) =>
        EffectOfWrite(env, s, a);
        WriteStep(env, s, a);
        TopStepKeepsAudited(s, r, t, Top(r, t).phase, [], CommittedEntries(env, s.availability, s.store, Top(s, t)));
      case Audit(t) =>
        AuditStep(env, s, a);
      case _ =>
        PhaseOfStep(env, s, a);
        PhaseStep(env, s, a);
        TopStepKeepsAudited(s, r, a.t, Top(r, a.t).phase, [], []);
    }
  }

  lemma {:induction false} RunKeepsAudited(env: Env, store: Store, availability: Availability, actions: seq<Action>)
    ensures Audited(Run(env, Start(store, availability), actions))
  {
    if actions == [] {
    } else {
      var n := |actions| - 1;
      RunKeepsAudited(env, store, availability, actions[..n]);
      StepKeepsAudited(env, Run(env, Start(store, availability), actions[..n]), actions[n]);
      hide Audited, Next, Start;
    }
  }

  /** In every run, each call that has returned is audited once per operation it
      reports, under its own identifier and with the returned statuses, and the
      history holds exactly the operations it reports as applied, with exactly the
      results it returned: a call that was cancelled, rejected or refused wrote
      nothing. */
  lemma {:induction false} ReturnedCallsAreAudited(
    env: Env, store: Store, availability: Availability, actions: seq<Action>, id: CallId)
    requires id in Run(env, Start(store, availability), actions).returned
    ensures var s := Run(env, Start(store, availability), actions);
            var r := s.returned[id];
            && RecordsOf(s.log, id) == Expected(id, r.request, r.settled, RecordCount(r.request, r.settled))
            && CommittedBy(s.history, id) == Wrote(r.request, r.settled)
            && ResultsBy(s.history, id) == Kept(r.settled)
            && Settles(r.request, r.settled)
  {
    RunKeepsAudited(env, store, availability, actions);
    hide Run, Start, Settles, Wrote, RecordCount, RecordsOf, EntriesBy, Kept, Expected, IdsDistinct, Unused,
         CallsAudited;
  }

  /** What its records hold, field by field: in every run, for every returned call, one
      per reported operation, with the status of that operation, and marked as rolled
      back exactly when a write of a transaction that asked for it was attempted and
      failed. */
  lemma {:induction false} RecordsShowResults(
    env: Env, store: Store, availability: Availability, actions: seq<Action>, id: CallId)
    requires id in Run(env, Start(store, availability), actions).returned
    ensures var s := Run(env, Start(store, availability), actions);
            var r := s.returned[id];
            var records := RecordsOf(s.log, id);
            && |records| == (if |r.settled.results| < |r.request.operations| then |r.settled.results|
                             else |r.request.operations|)
            && forall i :: 0 <= i < |records| ==>
                 && records[i].call == id
                 && records[i].op == r.request.operations[i]
                 && records[i].status == r.settled.results[i].status
                 && (records[i].rolledBack <==>
                       && r.settled.attempted && r.settled.status != Applied
                       && r.request.kind.Atomic? && r.request.kind.rollbackOnFailure)
  {
    ReturnedCallsAreAudited(env, store, availability, actions, id);
    hide Run, Start, RecordsOf, EntriesBy, Wrote, Kept;
  }

  lemma {:induction false} EntryInHistory(history: seq<Entry>, id: CallId, i: nat)
    requires i < |EntriesBy(history, id)|
    ensures exists k :: 0 <= k < |history| && history[k].call == id && history[k] == EntriesBy(history, id)[i]
  {
    var n := |history| - 1;
    var front := EntriesBy(history[..n], id);
    if i < |front| {
      EntryInHistory(history[..n], id, i);
      var k :| 0 <= k < n && history[..n][k].call == id && history[..n][k] == front[i];
      assert history[k] == EntriesBy(history, id)[i];
    } else {
      assert history[n] == EntriesBy(history, id)[i];
    }
  }

  /** So what a caller was told about an operation, snapshots included, is what the
      history says of one commit, and the laws of histories speak of it. */
  lemma {:induction false} ReturnedResultIsCommit(
    env: Env, store: Store, availability: Availability, actions: seq<Action>, id: CallId, i: nat)
    requires var s := Run(env, Start(store, availability), actions);
             && id in s.returned && s.returned[id].settled.attempted && s.returned[id].settled.status == Applied
             && i < |s.returned[id].settled.results|
    ensures var s := Run(env, Start(store, availability), actions);
            && |s.returned[id].request.operations| == |s.returned[id].settled.results|
            && exists k :: 0 <= k < |s.history| && s.history[k].call == id
                           && s.history[k].op == s.returned[id].request.operations[i]
                           && s.history[k].result == s.returned[id].settled.results[i]
  {
    var s := Run(env, Start(store, availability), actions);
    ReturnedCallsAreAudited(env, store, availability, actions, id);
    hide Run, Start, Settles, RecordsOf, Expected, RecordCount, EntriesBy;
    assert ResultsBy(s.history, id)[i] == s.returned[id].settled.results[i];
    assert CommittedBy(s.history, id)[i] == s.returned[id].request.operations[i];
    EntryInHistory(s.history, id, i);
  }

  /** How many records that is: one for `apply`, with the returned status; for
      `transact`, one per operation, or `k + 1` when the adapter refused operation `k`. */
  lemma RecordCountMeaning(request: Request, settled: Settled)
    requires Settles(request, settled) && request.operations != []
    ensures request.kind.Single? && |request.operations| == 1 ==>
              RecordCount(request, settled) == 1 && settled.results[0].status == settled.status
    ensures !settled.attempted || settled.status == Applied ==> RecordCount(request, settled) == |request.operations|
    ensures settled.attempted && settled.status != Applied ==>
              exists k :: 0 <= k < |request.operations| && RecordCount(request, settled) == k + 1
                          && settled.results[k].status != Applied
                          && forall i :: 0 <= i < k ==> settled.results[i].status == Applied
  {
    if settled.attempted && settled.status != Applied {
      var k := |settled.results| - 1;
      assert settled.results[k].status != Applied;
    }
  }
}
