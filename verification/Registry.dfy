/** The registry of mutation mutexes, `mutationMutexFor`, over programs that create
    and destroy adapters and services and in which memory addresses are reused. */
module Registry {

  type Address = nat
  type AdapterId = nat
  type MutexId = nat
  type ServiceId = nat

  /** The static registry: weak references by adapter address, and how many services
      hold each mutex. */
  datatype State = State(entries: map<Address, MutexId>, holders: map<MutexId, nat>, nextMutex: MutexId)
  {
    /** The weak reference has not expired. */
    predicate InUse(mutex: MutexId) {
      mutex in holders && holders[mutex] > 0
    }

    function Holders(mutex: MutexId): nat {
      if mutex in holders then holders[mutex] else 0
    }

    function Swept(): map<Address, MutexId> {
      map a | a in entries && InUse(entries[a]) :: entries[a]
    }
  }

  datatype Acquired = Acquired(state: State, mutex: MutexId)

  /** Sweep, find or create, and hold. */
  function Acquire(s: State, adapter: Address): Acquired {
    var swept := s.Swept();
    if adapter in swept then
      var mutex := swept[adapter];
      Acquired(State(swept, s.holders[mutex := s.Holders(mutex) + 1], s.nextMutex), mutex)
    else
      Acquired(State(swept[adapter := s.nextMutex], s.holders[s.nextMutex := 1], s.nextMutex + 1), s.nextMutex)
  }

  function Released(s: State, mutex: MutexId): State
    requires s.InUse(mutex)
  {
    s.(holders := s.holders[mutex := s.holders[mutex] - 1])
  }

  class MutexRegistry {
    var entries: map<Address, MutexId>
    var holders: map<MutexId, nat>
    var nextMutex: MutexId

    constructor ()
      ensures Now() == State(map[], map[], 0)
    {
      entries, holders, nextMutex := map[], map[], 0;
    }

    ghost function Now(): State
      reads this
    {
      State(entries, holders, nextMutex)
    }

    predicate Expired(mutex: MutexId)
      reads this
    {
      mutex !in holders || holders[mutex] == 0
    }

    /** Erases the expired entries one by one. */
    method Sweep()
      modifies this`entries
      ensures entries == old(Now()).Swept()
    {
      var rest := entries.Keys;
      while rest != {}
        invariant rest <= entries.Keys <= old(entries.Keys)
        invariant forall a :: a in entries ==> entries[a] == old(entries)[a]
        invariant forall a :: a in old(entries) ==> (a in entries <==> a in rest || !Expired(old(entries)[a]))
        decreases |rest|
      {
        var a :| a in rest;
        rest := rest - {a};
        if Expired(entries[a]) { entries := entries - {a}; }
      }
    }

    method MutationMutexFor(adapter: Address) returns (mutex: MutexId)
      modifies this
      ensures Acquired(Now(), mutex) == Acquire(old(Now()), adapter)
    {
      Sweep();
      if adapter in entries && !Expired(entries[adapter]) {
        mutex := entries[adapter];
        holders := holders[mutex := holders[mutex] + 1];
        return;
      }
      mutex := nextMutex;
      nextMutex := nextMutex + 1;
      holders := holders[mutex := 1];
      entries := entries[adapter := mutex];
    }

    method Release(mutex: MutexId)
      requires Now().InUse(mutex)
      modifies this`holders
      ensures Now() == Released(old(Now()), mutex)
    {
      holders := holders[mutex := holders[mutex] - 1];
    }
  }

  // Programs

  datatype Wrapped = Wrapped(adapter: AdapterId, mutex: MutexId)

  /** Live adapters with their addresses, live services, and services in their
      destructor that have dropped the mutex but not yet the adapter. */
  datatype Program = Program(
    adapters: map<AdapterId, Address>, services: map<ServiceId, Wrapped>, dying: map<ServiceId, AdapterId>,
    registry: State)

  datatype Event =
    | AllocateAdapter(id: AdapterId, address: Address)
    | FreeAdapter(id: AdapterId)
    | CreateService(service: ServiceId, wrapped: AdapterId)
    | DropMutex(service: ServiceId)
    | DropAdapter(service: ServiceId)

  /** Some service keeps the adapter alive. */
  predicate Held(p: Program, adapter: AdapterId) {
    (exists s :: s in p.services && p.services[s].adapter == adapter)
    || (exists s :: s in p.dying && p.dying[s] == adapter)
  }

  predicate Enabled(p: Program, e: Event) {
    match e
    case AllocateAdapter(id, address) => id !in p.adapters && address !in p.adapters.Values
    case FreeAdapter(id) => id in p.adapters && !Held(p, id)
    case CreateService(service, wrapped) => service !in p.services && service !in p.dying && wrapped in p.adapters
    case DropMutex(service) => service in p.services && p.registry.InUse(p.services[service].mutex)
    case DropAdapter(service) => service in p.dying
  }

  function Effect(p: Program, e: Event): Program
    requires Enabled(p, e)
  {
    match e
    case AllocateAdapter(id, address) => p.(adapters := p.adapters[id := address])
    case FreeAdapter(id) => p.(adapters := p.adapters - {id})
    case CreateService(service, wrapped) =>
      var a := Acquire(p.registry, p.adapters[wrapped]);
      p.(services := p.services[service := Wrapped(wrapped, a.mutex)], registry := a.state)
    case DropMutex(service) =>
      p.(services := p.services - {service}, dying := p.dying[service := p.services[service].adapter],
         registry := Released(p.registry, p.services[service].mutex))
    case DropAdapter(service) => p.(dying := p.dying - {service})
  }

  function Next(p: Program, e: Event): Program {
    if Enabled(p, e) then Effect(p, e) else p
  }

  const START: Program := Program(map[], map[], map[], State(map[], map[], 0))

  function Run(events: seq<Event>): Program {
    if events == [] then START else Next(Run(events[..|events| - 1]), events[|events| - 1])
  }

  function HoldersOf(services: map<ServiceId, Wrapped>, mutex: MutexId): set<ServiceId> {
    set s | s in services && services[s].mutex == mutex
  }

  /** Live adapters have distinct addresses. */
  predicate Addressed(p: Program) {
    && (forall a, b :: a in p.adapters && b in p.adapters && p.adapters[a] == p.adapters[b] ==> a == b)
    && (forall s :: s in p.services ==> p.services[s].adapter in p.adapters)
    && (forall s :: s in p.dying ==> p.dying[s] in p.adapters)
  }

  /** No two addresses lead to one mutex. */
  predicate OneToOne(entries: map<Address, MutexId>) {
    forall a, b :: a in entries && b in entries && entries[a] == entries[b] ==> a == b
  }

  predicate Below(entries: map<Address, MutexId>, next: MutexId) {
    forall a :: a in entries ==> entries[a] < next
  }

  /** The registry leads from the address of a held adapter to the mutex its services
      hold, and from no two addresses to one mutex. */
  predicate Linked(p: Program)
    requires Addressed(p)
  {
    && (forall s :: s in p.services ==>
          p.adapters[p.services[s].adapter] in p.registry.entries
          && p.registry.entries[p.adapters[p.services[s].adapter]] == p.services[s].mutex)
    && OneToOne(p.registry.entries) && Below(p.registry.entries, p.registry.nextMutex)
  }

  /** Holds are counted. */
  ghost predicate Counted(p: Program) {
    forall m :: p.registry.Holders(m) == |HoldersOf(p.services, m)|
  }

  ghost predicate Consistent(p: Program) {
    Addressed(p) && Linked(p) && Counted(p)
  }

  lemma HolderIsInUse(p: Program, s: ServiceId)
    requires Consistent(p) && s in p.services
    ensures p.registry.InUse(p.services[s].mutex)
  {
    var m := p.services[s].mutex;
    assert s in HoldersOf(p.services, m);
    assert p.registry.Holders(m) == |HoldersOf(p.services, m)|;
  }

  lemma CountAdded(services: map<ServiceId, Wrapped>, s: ServiceId, w: Wrapped, m: MutexId)
    requires s !in services
    ensures |HoldersOf(services[s := w], m)| == |HoldersOf(services, m)| + if w.mutex == m then 1 else 0
  {
    assert HoldersOf(services[s := w], m) == HoldersOf(services, m) + if w.mutex == m then {s} else {};
  }

  lemma CountRemoved(services: map<ServiceId, Wrapped>, s: ServiceId, m: MutexId)
    requires s in services
    ensures |HoldersOf(services - {s}, m)| == |HoldersOf(services, m)| - if services[s].mutex == m then 1 else 0
  {
    assert HoldersOf(services, m) == HoldersOf(services - {s}, m) + if services[s].mutex == m then {s} else {};
  }

  /** What a sweep and a lookup do to the entries: live ones stay, other addresses
      gain nothing, and the mutex is the one that was there or a new one. */
  lemma AcquireEntries(s: State, address: Address)
    ensures var r := Acquire(s, address).state.entries;
            && address in r && r[address] == Acquire(s, address).mutex
            && (forall a :: a in s.entries && s.InUse(s.entries[a]) ==> a in r && r[a] == s.entries[a])
            && (forall a :: a in r && a != address ==> a in s.entries && r[a] == s.entries[a])
            && (r[address] == s.nextMutex || (address in s.entries && r[address] == s.entries[address]))
    ensures s.nextMutex <= Acquire(s, address).state.nextMutex <= s.nextMutex + 1
    ensures Acquire(s, address).mutex < Acquire(s, address).state.nextMutex
            || (address in s.entries && Acquire(s, address).mutex == s.entries[address])
  {
  }

  lemma AcquireKeepsOneToOne(s: State, address: Address)
    requires OneToOne(s.entries) && Below(s.entries, s.nextMutex)
    ensures OneToOne(Acquire(s, address).state.entries)
    ensures Below(Acquire(s, address).state.entries, Acquire(s, address).state.nextMutex)
  {
    AcquireEntries(s, address);
    hide Acquire;
  }

  lemma CreateKeepsLinked(p: Program, e: Event)
    requires Consistent(p) && Enabled(p, e) && e.CreateService?
    ensures Addressed(Effect(p, e)) && Linked(Effect(p, e))
  {
    var address := p.adapters[e.wrapped];
    AcquireEntries(p.registry, address);
    AcquireKeepsOneToOne(p.registry, address);
    hide Acquire, OneToOne, Below;
    var r := Effect(p, e);
    forall s | s in r.services
      ensures r.adapters[r.services[s].adapter] in r.registry.entries
      ensures r.registry.entries[r.adapters[r.services[s].adapter]] == r.services[s].mutex
    {
      if s != e.service { HolderIsInUse(p, s); }
    }
    hide Counted;
  }

  lemma CreateKeepsCounted(p: Program, e: Event)
    requires Consistent(p) && Enabled(p, e) && e.CreateService?
    ensures Counted(Effect(p, e))
  {
    var r := Effect(p, e);
    var w := r.services[e.service];
    NobodyHolds(p, p.registry.nextMutex);
    hide Addressed, Linked, HoldersOf;
    forall m ensures r.registry.Holders(m) == |HoldersOf(r.services, m)| {
      CountAdded(p.services, e.service, w, m);
      assert p.registry.Holders(m) == |HoldersOf(p.services, m)|;
    }
  }

  lemma NobodyHolds(p: Program, m: MutexId)
    requires Addressed(p) && Linked(p) && m >= p.registry.nextMutex
    ensures HoldersOf(p.services, m) == {}
  {
  }

  lemma DropKeepsCounted(p: Program, e: Event)
    requires Counted(p) && Enabled(p, e) && e.DropMutex?
    ensures Counted(Effect(p, e))
  {
    var r := Effect(p, e);
    forall m ensures r.registry.Holders(m) == |HoldersOf(r.services, m)| {
      CountRemoved(p.services, e.service, m);
      assert p.registry.Holders(m) == |HoldersOf(p.services, m)|;
    }
  }

  lemma StepKeepsConsistent(p: Program, e: Event)
    requires Consistent(p)
    ensures Consistent(Next(p, e))
  {
    if Enabled(p, e) {
      match e {
        case CreateService(_, _) =>
          CreateKeepsLinked(p, e);
          CreateKeepsCounted(p, e);
        case DropMutex(_) => DropKeepsCounted(p, e);
        case AllocateAdapter(id, address) =>
          assert forall a :: a in p.adapters ==> p.adapters[a] in p.adapters.Values;
        case _ =>
      }
    }
  }

  lemma {:induction false} RunIsConsistent(events: seq<Event>)
    ensures Consistent(Run(events))
  {
    hide Next, Consistent;
    if events == [] {
      StartIsConsistent();
    } else {
      RunIsConsistent(events[..|events| - 1]);
      StepKeepsConsistent(Run(events[..|events| - 1]), events[|events| - 1]);
    }
  }

  lemma StartIsConsistent()
    ensures Consistent(START)
  {
    assert forall m :: HoldersOf(START.services, m) == {};
  }

  /** Through any sequence of creations and destructions, two live services hold the
      same mutation mutex exactly when they wrap the same adapter. */
  lemma {:induction false} SameMutexIffSameAdapter(events: seq<Event>, s: ServiceId, t: ServiceId)
    requires s in Run(events).services && t in Run(events).services
    ensures var services := Run(events).services;
            services[s].mutex == services[t].mutex <==> services[s].adapter == services[t].adapter
  {
    RunIsConsistent(events);
    hide Run;
  }

  /** Right after a service is created, the registry holds only mutexes that some
      live service holds. */
  lemma {:induction false} CreationSweeps(events: seq<Event>, e: Event, a: Address)
    requires e.CreateService? && Enabled(Run(events), e) && a in Next(Run(events), e).registry.entries
    ensures exists s :: s in Next(Run(events), e).services
                        && Next(Run(events), e).services[s].mutex == Next(Run(events), e).registry.entries[a]
  {
    RunIsConsistent(events);
    var p := Run(events);
    hide Run;
    StepKeepsConsistent(p, e);
    var r := Next(p, e);
    var m := r.registry.entries[a];
    assert r.registry.Holders(m) == |HoldersOf(r.services, m)|;
    assert r.registry.Holders(m) > 0;
    var s :| s in HoldersOf(r.services, m);
  }
}
