/**
 * config/config.go, the cache in front of the resolver: double-checked initialisation, then
 * read, resolve on a miss, and write.  Any number of goroutines look up and clear at the same
 * time; each of the steps below is one atomic load, store, lock or unlock.
 */
module AuthCache {
  import opened Results
  import opened AuthResolver

  /** resolveAuthConfigForHostname of one unmodified config. */
  type Resolver = string -> Answer

  function ResolverOf(c: Config, helper: Helper): Resolver
  {
    host => Resolve(c, helper, host)
  }

  type Tid = nat

  datatype Op = Lookup(host: string) | Clear

  /** authConfigCache: the entries and who holds the RWMutex. */
  datatype Cache = Cache(entries: map<string, AuthConfig>, readers: set<Tid>, writer: Option<Tid>)

  const EMPTY_CACHE := Cache(map[], {}, None)

  /** The next step of a goroutine, with what it has in hand. */
  datatype Pc =
    | Idle
    | LoadSlot(op: Op)                                  // initCache: if c.cache.Load() != nil
    | LockInit(op: Op)                                  // cacheInitMutex.Lock()
    | Recheck(op: Op)                                   // the second Load, under the mutex
    | Store(op: Op)                                     // c.cache.Store(newCache)
    | UnlockInit(op: Op)                                // the deferred Unlock
    | LoadCache(op: Op)                                 // getCache: c.cache.Load()
    | ReadLock(host: string, cache: nat)                // cache.mutex.RLock()
    | Read(host: string, cache: nat)                    // cache.entries[hostname]
    | ReadUnlock(host: string, cache: nat, hit: Option<AuthConfig>)
    | Resolving(host: string, cache: nat)               // resolveAuthConfigForHostname
    | WriteLock(op: Op, cache: nat, value: Option<AuthConfig>)
    | Write(op: Op, cache: nat, value: Option<AuthConfig>)
    | WriteUnlock(op: Op, cache: nat, value: Option<AuthConfig>)
    | NilCache                                          // the type assertion of getCache on nil

  datatype Return = Returned(host: string, answer: Answer)

  /** The shared state, the goroutines, and every lookup that has returned. */
  datatype State = State(
    slot: Option<nat>,
    caches: seq<Cache>,
    initMutex: Option<Tid>,
    pcs: map<Tid, Pc>,
    log: seq<Return>)

  const INITIAL := State(None, [], None, map[], [])

  function PcOf(s: State, t: Tid): Pc
  {
    if t in s.pcs then s.pcs[t] else Idle
  }

  function Goto(s: State, t: Tid, pc: Pc): State
  {
    s.(pcs := s.pcs[t := pc])
  }

  function WithCache(s: State, c: nat, cache: Cache): State
    requires c < |s.caches|
  {
    s.(caches := s.caches[c := cache])
  }

  function Return_(s: State, t: Tid, host: string, answer: Answer): State
  {
    Goto(s, t, Idle).(log := s.log + [Returned(host, answer)])
  }

  /** One step of goroutine `t`; an idle one starts `op`, one that waits for a lock stays. */
  function Step(resolve: Resolver, s: State, t: Tid, op: Op): State
  {
    match PcOf(s, t)
    case Idle => Goto(s, t, LoadSlot(op))
    case LoadSlot(o) => Goto(s, t, if s.slot.Some? then LoadCache(o) else LockInit(o))
    case LockInit(o) => if s.initMutex.Some? then s else Goto(s, t, Recheck(o)).(initMutex := Some(t))
    case Recheck(o) => Goto(s, t, if s.slot.Some? then UnlockInit(o) else Store(o))
    case Store(o) => Goto(s, t, UnlockInit(o)).(caches := s.caches + [EMPTY_CACHE], slot := Some(|s.caches|))
    case UnlockInit(o) => Goto(s, t, LoadCache(o)).(initMutex := None)
    case LoadCache(o) =>
      if s.slot.None? then Goto(s, t, NilCache)
      else Goto(s, t, match o case Lookup(h) => ReadLock(h, s.slot.value) case Clear => WriteLock(o, s.slot.value, None))
    case NilCache => s
    case Resolving(h, i) =>
      (match resolve(h)
       case Err(e) => Return_(s, t, h, Err(e))
       case Ok(v) => Goto(s, t, WriteLock(Lookup(h), i, Some(v))))
    case _ => LockedStep(s, t)
  }

  /** The steps on the entries of a cache and its RWMutex. */
  function LockedStep(s: State, t: Tid): State
  {
    match PcOf(s, t)
    case ReadLock(h, i) =>
      if i >= |s.caches| || s.caches[i].writer.Some? then s
      else Goto(WithCache(s, i, s.caches[i].(readers := s.caches[i].readers + {t})), t, Read(h, i))
    case Read(h, i) =>
      if i >= |s.caches| then s
      else Goto(s, t, ReadUnlock(h, i, if h in s.caches[i].entries then Some(s.caches[i].entries[h]) else None))
    case ReadUnlock(h, i, hit) =>
      if i >= |s.caches| then s
      else
        var s' := WithCache(s, i, s.caches[i].(readers := s.caches[i].readers - {t}));
        if hit.Some? then Return_(s', t, h, Ok(hit.value)) else Goto(s', t, Resolving(h, i))
    case WriteLock(o, i, v) =>
      if i >= |s.caches| || s.caches[i].writer.Some? || s.caches[i].readers != {} then s
      else Goto(WithCache(s, i, s.caches[i].(writer := Some(t))), t, Write(o, i, v))
    case Write(o, i, v) =>
      if i >= |s.caches| then s
      else
        var entries := if o.Lookup? && v.Some? then s.caches[i].entries[o.host := v.value] else map[];
        Goto(WithCache(s, i, s.caches[i].(entries := entries)), t, WriteUnlock(o, i, v))
    case WriteUnlock(o, i, v) =>
      if i >= |s.caches| then s
      else
        var s' := WithCache(s, i, s.caches[i].(writer := None));
        if o.Lookup? && v.Some? then Return_(s', t, o.host, Ok(v.value)) else Goto(s', t, Idle)
    case _ => s
  }

  /** Who moves next, and what it starts if it is idle. */
  type Schedule = seq<(Tid, Op)>

  function Run(resolve: Resolver, schedule: Schedule): State
  {
    if schedule == [] then INITIAL
    else
      var (t, op) := schedule[|schedule| - 1];
      Step(resolve, Run(resolve, schedule[..|schedule| - 1]), t, op)
  }

  // ---------- The invariant ----------

  /** The goroutine holds cacheInitMutex. */
  predicate Initialising(pc: Pc)
  {
    pc.Recheck? || pc.Store? || pc.UnlockInit?
  }

  predicate Reading(pc: Pc)
  {
    pc.Read? || pc.ReadUnlock?
  }

  predicate Writing(pc: Pc)
  {
    pc.Write? || pc.WriteUnlock?
  }

  /** The goroutine has a cache in hand. */
  predicate HasCache(pc: Pc)
  {
    Reading(pc) || Writing(pc) || pc.ReadLock? || pc.Resolving? || pc.WriteLock?
  }

  /** What a goroutine has in hand is what the resolver says. */
  predicate TrueInHand(resolve: Resolver, pc: Pc)
  {
    match pc
    case ReadUnlock(h, _, hit) => hit.Some? ==> resolve(h) == Ok(hit.value)
    case WriteLock(o, _, v) => (o.Lookup? <==> v.Some?) && (o.Lookup? ==> resolve(o.host) == Ok(v.value))
    case Write(o, _, v) => (o.Lookup? <==> v.Some?) && (o.Lookup? ==> resolve(o.host) == Ok(v.value))
    case WriteUnlock(o, _, v) => (o.Lookup? <==> v.Some?) && (o.Lookup? ==> resolve(o.host) == Ok(v.value))
    case _ => true
  }

  predicate ThreadOk(resolve: Resolver, s: State, t: Tid)
  {
    var pc := PcOf(s, t);
    && (s.initMutex == Some(t) <==> Initialising(pc))
    && (pc.Store? ==> s.slot == None)
    && (pc.UnlockInit? || pc.LoadCache? || HasCache(pc) ==> s.slot == Some(0))
    && (HasCache(pc) ==> pc.cache == 0)
    && (s.slot.Some? && |s.caches| > 0 ==>
         (t in s.caches[0].readers <==> Reading(pc)) && (s.caches[0].writer == Some(t) <==> Writing(pc)))
    && pc != NilCache
    && TrueInHand(resolve, pc)
  }

  /** One cache object at most, its lock held by readers or by one writer, its entries true. */
  ghost predicate SharedOk(resolve: Resolver, s: State)
  {
    && (if s.slot.None? then s.caches == [] else s.slot == Some(0) && |s.caches| == 1)
    && (s.slot.Some? && s.caches[0].writer.Some? ==> s.caches[0].readers == {})
    && (s.slot.Some? ==> forall h :: h in s.caches[0].entries ==> resolve(h) == Ok(s.caches[0].entries[h]))
    && (forall i :: 0 <= i < |s.log| ==> s.log[i].answer == resolve(s.log[i].host))
  }

  ghost predicate Inv(resolve: Resolver, s: State)
  {
    SharedOk(resolve, s) && forall t: Tid :: ThreadOk(resolve, s, t)
  }

  lemma LockedStepShared(resolve: Resolver, s: State, t: Tid)
    requires Inv(resolve, s) && HasCache(PcOf(s, t)) && !PcOf(s, t).Resolving?
    ensures SharedOk(resolve, LockedStep(s, t))
  {
    assert ThreadOk(resolve, s, t);
  }

  lemma LockedStepThreads(resolve: Resolver, s: State, t: Tid, u: Tid)
    requires Inv(resolve, s) && HasCache(PcOf(s, t)) && !PcOf(s, t).Resolving?
    ensures ThreadOk(resolve, LockedStep(s, t), u)
  {
    assert ThreadOk(resolve, s, t) && ThreadOk(resolve, s, u);
  }

  lemma StepShared(resolve: Resolver, s: State, t: Tid, op: Op)
    requires Inv(resolve, s)
    ensures SharedOk(resolve, Step(resolve, s, t, op))
  {
    assert ThreadOk(resolve, s, t);
    if HasCache(PcOf(s, t)) && !PcOf(s, t).Resolving? {
      LockedStepShared(resolve, s, t);
    }
  }

  /** The steps on the slot and the mutex that guards its initialisation. */
  lemma InitStepThreads(resolve: Resolver, s: State, t: Tid, op: Op, u: Tid)
    requires Inv(resolve, s) && !HasCache(PcOf(s, t)) && !PcOf(s, t).LoadCache?
    ensures ThreadOk(resolve, Step(resolve, s, t, op), u)
  {
    assert ThreadOk(resolve, s, t) && ThreadOk(resolve, s, u);
  }

  lemma StepThreads(resolve: Resolver, s: State, t: Tid, op: Op, u: Tid)
    requires Inv(resolve, s)
    ensures ThreadOk(resolve, Step(resolve, s, t, op), u)
  {
    assert ThreadOk(resolve, s, t) && ThreadOk(resolve, s, u);
    if HasCache(PcOf(s, t)) {
      if !PcOf(s, t).Resolving? {
        LockedStepThreads(resolve, s, t, u);
      }
    } else if !PcOf(s, t).LoadCache? {
      InitStepThreads(resolve, s, t, op, u);
    }
  }

  /** The invariant holds under every interleaving of every number of goroutines. */
  lemma {:induction false} InvHolds(resolve: Resolver, schedule: Schedule)
    ensures Inv(resolve, Run(resolve, schedule))
    decreases |schedule|
  {
    if schedule != [] {
      var before := schedule[..|schedule| - 1];
      var (t, op) := schedule[|schedule| - 1];
      var s := Run(resolve, before);
      InvHolds(resolve, before);
      StepShared(resolve, s, t, op);
      forall u: Tid
        ensures ThreadOk(resolve, Step(resolve, s, t, op), u)
      {
        StepThreads(resolve, s, t, op, u);
      }
    }
  }

  // ---------- What it means ----------

  /**
   * Under every interleaving of lookups and clears the cache is invisible: at most one cache
   * object is ever made, every lookup returns what the uncached resolver says, and every entry is
   * such an answer, so no error is ever cached.
   */
  lemma CacheAgreesWithResolver(c: Config, helper: Helper, schedule: Schedule)
    ensures var s := Run(ResolverOf(c, helper), schedule);
      && |s.caches| <= 1
      && (forall i :: 0 <= i < |s.log| ==> s.log[i].answer == Resolve(c, helper, s.log[i].host))
      && (forall i, h :: 0 <= i < |s.caches| && h in s.caches[i].entries ==>
           Resolve(c, helper, h) == Ok(s.caches[i].entries[h]))
  {
    InvHolds(ResolverOf(c, helper), schedule);
  }

  /** Any two lookups of Docker Hub agree, though the cache is keyed by the hostname as given. */
  lemma AliasLookupsAgree(c: Config, helper: Helper, schedule: Schedule, i: nat, j: nat)
    requires var s := Run(ResolverOf(c, helper), schedule);
      && i < |s.log| && j < |s.log|
      && DockerHubAlias(s.log[i].host) && DockerHubAlias(s.log[j].host)
    ensures var s := Run(ResolverOf(c, helper), schedule); s.log[i].answer == s.log[j].answer
  {
    var s := Run(ResolverOf(c, helper), schedule);
    CacheAgreesWithResolver(c, helper, schedule);
    AliasesAgree(c, helper, s.log[i].host, s.log[j].host);
  }

  /** Entries are only touched alone: a goroutine that writes shares the cache with nobody. */
  lemma WritersAreAlone(resolve: Resolver, schedule: Schedule, t: Tid, u: Tid)
    requires var s := Run(resolve, schedule); t != u && Writing(PcOf(s, t))
    ensures var s := Run(resolve, schedule); !Writing(PcOf(s, u)) && !Reading(PcOf(s, u))
  {
    var s := Run(resolve, schedule);
    InvHolds(resolve, schedule);
    assert ThreadOk(resolve, s, t) && ThreadOk(resolve, s, u);
  }

  /** Once published the cache object stays the same, and no goroutine ever finds none. */
  lemma SlotIsStable(resolve: Resolver, schedule: Schedule, t: Tid, op: Op)
    ensures var s, s' := Run(resolve, schedule), Run(resolve, schedule + [(t, op)]);
      && (s.slot.Some? ==> s'.slot == s.slot)
      && PcOf(s', t) != NilCache
  {
    InvHolds(resolve, schedule);
    InvHolds(resolve, schedule + [(t, op)]);
    var s := Run(resolve, schedule);
    assert ThreadOk(resolve, s, t);
    assert (schedule + [(t, op)])[..|schedule|] == schedule;
    assert ThreadOk(resolve, Run(resolve, schedule + [(t, op)]), t);
  }

  /** No deadlock: as long as a goroutine is under way, some goroutine under way can move. */
  lemma SomeoneCanMove(resolve: Resolver, schedule: Schedule, t: Tid, op: Op) returns (u: Tid)
    requires PcOf(Run(resolve, schedule), t) != Idle
    ensures var s := Run(resolve, schedule); PcOf(s, u) != Idle && PcOf(Step(resolve, s, u, op), u) != PcOf(s, u)
  {
    var s := Run(resolve, schedule);
    InvHolds(resolve, schedule);
    assert ThreadOk(resolve, s, t);
    u := t;
    var pc := PcOf(s, t);
    if pc.LockInit? && s.initMutex.Some? {
      u := s.initMutex.value;
    } else if pc.ReadLock? && s.caches[0].writer.Some? {
      u := s.caches[0].writer.value;
    } else if pc.WriteLock? && s.caches[0].writer.Some? {
      u := s.caches[0].writer.value;
    } else if pc.WriteLock? && s.caches[0].readers != {} {
      u :| u in s.caches[0].readers;
    }
    assert ThreadOk(resolve, s, u);
  }
}
