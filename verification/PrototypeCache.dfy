/**
 The prototype cache of the message helper: a first-wins map in front of three descriptor pools
 that only grow. A lookup by a thread is several steps, between which other threads run.
 */
module PrototypeCache {
  import opened Options

  /** The address of a prototype message; a descriptor has one prototype. */
  type Prototype = nat

  type Types = map<string, Prototype>

  /** The importer's pool, the pool of compiled-in messages, and the pool of messages built at run time. */
  datatype Pools = Pools(importer: Types, generated: Types, dynamic: Types, dynamicFiles: set<string>)

  /** The pools in the order in which they are asked. */
  function Search(p: Pools, name: string): Option<Prototype> {
    if name in p.importer then Some(p.importer[name])
    else if name in p.generated then Some(p.generated[name])
    else if name in p.dynamic then Some(p.dynamic[name])
    else None
  }

  /** `concurrent_hash_map::insert` keeps an entry that is there. */
  function InsertNew(cache: Types, name: string, p: Prototype): Types {
    if name in cache then cache else cache[name := p]
  }

  // ---- threads ----

  /** Where a thread stands in `getPbPrototype`; `start` is what the pools were when it missed the cache. */
  datatype Pc =
    | Idle
    | AtImporter(name: string, start: Pools)
    | AtGenerated(name: string, start: Pools)
    | AtDynamic(name: string, start: Pools)
    | AtInsert(name: string, found: Prototype)

  /** The result of a lookup; a miss keeps what the pools were when it began. */
  datatype Answer = Found(name: string, prototype: Prototype) | Missing(name: string, start: Pools)

  datatype State = State(pools: Pools, cache: Types, threads: seq<Pc>, answers: seq<Answer>)

  datatype Action =
    | Import(types: Types)                          // a proto file is imported
    | Link(types: Types)                            // compiled-in messages are added
    | Build(file: string, types: Types)             // a message file is built at run time
    | Add(name: string, prototype: Prototype)       // addPbPrototype
    | Call(t: nat, name: string)                    // the cache is asked
    | AskImporter(t: nat)
    | AskGenerated(t: nat)
    | AskDynamic(t: nat)
    | Insert(t: nat)

  /** A pool takes a file only if none of its types is there. */
  function Grow(pool: Types, types: Types): (r: Types)
    ensures forall n :: n in pool ==> n in r && r[n] == pool[n]
    ensures pool.Keys !! types.Keys ==> forall n :: n in types ==> n in r && r[n] == types[n]
  {
    if pool.Keys !! types.Keys then pool + types else pool
  }

  function At(s: State, t: nat): Pc {
    if t < |s.threads| then s.threads[t] else Idle
  }

  function Goto(s: State, t: nat, pc: Pc): State
    requires t < |s.threads|
  {
    s.(threads := s.threads[t := pc])
  }

  function Return(s: State, t: nat, answer: Answer): State
    requires t < |s.threads|
  {
    s.(threads := s.threads[t := Idle], answers := s.answers + [answer])
  }

  /** `BuildFile`, but a file that has been built is left alone. */
  function BuildFile(p: Pools, file: string, types: Types): Pools {
    if file in p.dynamicFiles || !(p.dynamic.Keys !! types.Keys) then p
    else p.(dynamic := Grow(p.dynamic, types), dynamicFiles := p.dynamicFiles + {file})
  }

  /** The state after a step, if the step is possible. */
  function Step(s: State, a: Action): Option<State> {
    match a
    case Import(types) => Some(s.(pools := s.pools.(importer := Grow(s.pools.importer, types))))
    case Link(types) => Some(s.(pools := s.pools.(generated := Grow(s.pools.generated, types))))
    case Build(file, types) => Some(s.(pools := BuildFile(s.pools, file, types)))
    case Add(name, p) => Some(s.(cache := InsertNew(s.cache, name, p)))
    case Call(t, name) =>
      if t >= |s.threads| || !s.threads[t].Idle? then None
      else if name in s.cache then Some(s.(answers := s.answers + [Found(name, s.cache[name])]))
      else Some(Goto(s, t, AtImporter(name, s.pools)))
    case AskImporter(t) =>
      if !At(s, t).AtImporter? then None
      else
        var pc := s.threads[t];
        if pc.name in s.pools.importer then Some(Goto(s, t, AtInsert(pc.name, s.pools.importer[pc.name])))
        else Some(Goto(s, t, AtGenerated(pc.name, pc.start)))
    case AskGenerated(t) =>
      if !At(s, t).AtGenerated? then None
      else
        var pc := s.threads[t];
        if pc.name in s.pools.generated then Some(Goto(s, t, AtInsert(pc.name, s.pools.generated[pc.name])))
        else Some(Goto(s, t, AtDynamic(pc.name, pc.start)))
    case AskDynamic(t) =>
      if !At(s, t).AtDynamic? then None
      else
        var pc := s.threads[t];
        if pc.name in s.pools.dynamic then Some(Goto(s, t, AtInsert(pc.name, s.pools.dynamic[pc.name])))
        else Some(Return(s, t, Missing(pc.name, pc.start)))
    case Insert(t) =>
      if !At(s, t).AtInsert? then None
      else
        var pc := s.threads[t];
        Some(Return(s.(cache := InsertNew(s.cache, pc.name, pc.found)), t, Found(pc.name, pc.found)))
  }

  function Run(s: State, actions: seq<Action>): Option<State>
    decreases actions
  {
    if actions == [] then Some(s)
    else
      var next :- Step(s, actions[0]);
      Run(next, actions[1..])
  }

  function Start(pools: Pools, threads: nat): State {
    State(pools, map[], seq(threads, _ => Idle), [])
  }

  // ---- the cache only grows ----

  predicate Extends(a: Types, b: Types) {
    forall n :: n in a ==> n in b && b[n] == a[n]
  }

  predicate PoolsExtend(a: Pools, b: Pools) {
    Extends(a.importer, b.importer) && Extends(a.generated, b.generated) && Extends(a.dynamic, b.dynamic)
  }

  lemma {:induction false} StepExtends(s: State, a: Action)
    requires Step(s, a).Some?
    ensures Extends(s.cache, Step(s, a).value.cache) && PoolsExtend(s.pools, Step(s, a).value.pools)
  {
  }

  /** Whatever happens, a cached name keeps its prototype: every later call returns the same. */
  lemma {:induction false} CachedForGood(s: State, actions: seq<Action>)
    requires Run(s, actions).Some?
    ensures Extends(s.cache, Run(s, actions).value.cache)
    ensures PoolsExtend(s.pools, Run(s, actions).value.pools)
    decreases actions
  {
    if actions != [] {
      StepExtends(s, actions[0]);
      CachedForGood(Step(s, actions[0]).value, actions[1..]);
    }
  }

  // ---- cache and search agree ----

  /** No type is in two pools. */
  predicate Exclusive(p: Pools) {
    p.importer.Keys !! p.generated.Keys && p.importer.Keys !! p.dynamic.Keys && p.generated.Keys !! p.dynamic.Keys
  }

  predicate InSomePool(p: Pools, name: string, found: Prototype) {
    || (name in p.importer && p.importer[name] == found)
    || (name in p.generated && p.generated[name] == found)
    || (name in p.dynamic && p.dynamic[name] == found)
  }

  /** What a thread knows about the pools as they were when it missed the cache. */
  predicate Pending(p: Pools, pc: Pc) {
    match pc
    case Idle => true
    case AtImporter(_, start) => PoolsExtend(start, p)
    case AtGenerated(name, start) => PoolsExtend(start, p) && name !in start.importer
    case AtDynamic(name, start) => PoolsExtend(start, p) && name !in start.importer && name !in start.generated
    case AtInsert(name, found) => InSomePool(p, name, found)
  }

  predicate Answered(p: Pools, a: Answer) {
    match a
    case Found(name, found) => InSomePool(p, name, found)
    case Missing(name, start) => PoolsExtend(start, p) && Search(start, name).None?
  }

  predicate FromPools(s: State) {
    && (forall n :: n in s.cache ==> InSomePool(s.pools, n, s.cache[n]))
    && (forall t :: 0 <= t < |s.threads| ==> Pending(s.pools, s.threads[t]))
    && (forall i :: 0 <= i < |s.answers| ==> Answered(s.pools, s.answers[i]))
  }

  lemma {:induction false} GrowingKeeps(s: State, pools: Pools)
    requires FromPools(s) && PoolsExtend(s.pools, pools)
    ensures FromPools(s.(pools := pools))
  {
  }

  lemma {:induction false} StepFromPools(s: State, a: Action)
    requires FromPools(s) && !a.Add? && Step(s, a).Some?
    ensures FromPools(Step(s, a).value)
  {
    if a.Import? || a.Link? || a.Build? {
      GrowingKeeps(s, Step(s, a).value.pools);
    }
  }

  lemma {:induction false} RunFromPools(s: State, actions: seq<Action>)
    requires FromPools(s) && Run(s, actions).Some?
    requires forall i :: 0 <= i < |actions| ==> !actions[i].Add?
    ensures FromPools(Run(s, actions).value)
    decreases actions
  {
    if actions != [] {
      assert !actions[0].Add?;
      assert forall i :: 0 <= i < |actions[1..]| ==> actions[1..][i] == actions[i + 1];
      StepFromPools(s, actions[0]);
      RunFromPools(Step(s, actions[0]).value, actions[1..]);
    }
  }

  /** What a call made now by a single thread returns. */
  function Lookup(pools: Pools, cache: Types, name: string): Option<Prototype> {
    if name in cache then Some(cache[name]) else Search(pools, name)
  }

  lemma {:induction false} OnePlace(p: Pools, name: string, found: Prototype)
    requires Exclusive(p) && InSomePool(p, name, found)
    ensures Search(p, name) == Some(found)
  {
  }

  /**
   If no type is in two pools and the cache is filled by lookups only, then after every run, with
   any races between finding, searching and inserting, the cache is invisible: a lookup gives
   what the pools give, every prototype returned so far is still the one the pools give, and a
   miss was returned only for a type that was in no pool when the call began.
   */
  lemma {:induction false} CacheIsInvisible(pools: Pools, threads: nat, actions: seq<Action>)
    requires Run(Start(pools, threads), actions).Some?
    requires forall i :: 0 <= i < |actions| ==> !actions[i].Add?
    requires Exclusive(Run(Start(pools, threads), actions).value.pools)
    ensures var s := Run(Start(pools, threads), actions).value;
            && (forall name :: Lookup(s.pools, s.cache, name) == Search(s.pools, name))
            && (forall i :: 0 <= i < |s.answers| ==>
                  var a := s.answers[i];
                  if a.Found? then Search(s.pools, a.name) == Some(a.prototype)
                  else PoolsExtend(a.start, s.pools) && Search(a.start, a.name).None?)
  {
    RunFromPools(Start(pools, threads), actions);
    var s := Run(Start(pools, threads), actions).value;
    forall name ensures Lookup(s.pools, s.cache, name) == Search(s.pools, name) {
      if name in s.cache {
        OnePlace(s.pools, name, s.cache[name]);
      }
    }
    forall i | 0 <= i < |s.answers|
      ensures var a := s.answers[i];
              if a.Found? then Search(s.pools, a.name) == Some(a.prototype)
              else PoolsExtend(a.start, s.pools) && Search(a.start, a.name).None?
    {
      var a := s.answers[i];
      assert Answered(s.pools, a);
      if a.Found? {
        OnePlace(s.pools, a.name, a.prototype);
      }
    }
  }

  /** The step puts the name into the cache: a lookup of that name that found it, or addPbPrototype. */
  predicate Caches(s: State, a: Action, name: string, p: Prototype) {
    || (a.Insert? && At(s, a.t) == AtInsert(name, p))
    || a == Add(name, p)
  }

  lemma {:induction false} CachedNow(s: State, a: Action, name: string)
    requires Step(s, a).Some? && name !in s.cache && name in Step(s, a).value.cache
    ensures Caches(s, a, name, Step(s, a).value.cache[name])
    ensures FromPools(s) && !a.Add? ==> InSomePool(s.pools, name, Step(s, a).value.cache[name])
  {
    if a.Insert? {
      assert FromPools(s) ==> Pending(s.pools, s.threads[a.t]);
    }
  }

  /**
   A miss is not remembered: when a name gets into the cache, at that step a lookup of that very
   name was about to insert what it had found, or addPbPrototype was called with it; without
   addPbPrototype in the run, what was found is in some pool.
   */
  lemma {:induction false} MissesAreNotCached(s: State, actions: seq<Action>, name: string)
    returns (k: nat, before: State)
    requires Run(s, actions).Some? && name !in s.cache && name in Run(s, actions).value.cache
    ensures k < |actions| && Run(s, actions[..k]) == Some(before)
    ensures name !in before.cache
    ensures Caches(before, actions[k], name, Run(s, actions).value.cache[name])
    ensures FromPools(s) && (forall i :: 0 <= i < |actions| ==> !actions[i].Add?) ==>
              InSomePool(before.pools, name, Run(s, actions).value.cache[name])
    decreases actions
  {
    var next := Step(s, actions[0]).value;
    if name in next.cache {
      CachedForGood(next, actions[1..]);
      CachedNow(s, actions[0], name);
      k, before := 0, s;
    } else {
      k, before := MissesAreNotCached(next, actions[1..], name);
      assert actions[..k + 1][1..] == actions[1..][..k];
      assert forall i :: 0 <= i < |actions[1..]| ==> actions[1..][i] == actions[i + 1];
      if FromPools(s) && forall i :: 0 <= i < |actions| ==> !actions[i].Add? {
        StepFromPools(s, actions[0]);
      }
      k := k + 1;
    }
  }

  // ---- what a registration makes the pools give ----

  /** A file is taken whole, if none of its types is in the pool, or not at all. */
  predicate Accepts(pool: Types, types: Types) {
    forall n :: n in types ==> n !in pool
  }

  /** After an import the imported types are found with their new prototypes, whatever the other pools hold. */
  lemma {:induction false} ImportIsFound(s: State, types: Types, name: string)
    ensures var p, p' := s.pools, Step(s, Import(types)).value.pools;
            if Accepts(p.importer, types) && name in types then Search(p', name) == Some(types[name])
            else Search(p', name) == Search(p, name)
    ensures !Accepts(s.pools.importer, types) ==> Step(s, Import(types)) == Some(s)
  {
    assert Accepts(s.pools.importer, types) <==> s.pools.importer.Keys !! types.Keys;
  }

  /** Types that are compiled in are found, unless the importer has them. */
  lemma {:induction false} LinkIsFound(s: State, types: Types, name: string)
    ensures var p, p' := s.pools, Step(s, Link(types)).value.pools;
            if Accepts(p.generated, types) && name in types && name !in p.importer
            then Search(p', name) == Some(types[name])
            else Search(p', name) == Search(p, name)
    ensures !Accepts(s.pools.generated, types) ==> Step(s, Link(types)) == Some(s)
  {
    assert Accepts(s.pools.generated, types) <==> s.pools.generated.Keys !! types.Keys;
  }

  /** The types of a file that is built at run time are found, unless another pool has them; a file is built once. */
  lemma {:induction false} BuildIsFound(s: State, file: string, types: Types, name: string)
    ensures var p := s.pools;
            var s' := Step(s, Build(file, types)).value;
            var built := file !in p.dynamicFiles && Accepts(p.dynamic, types);
            && (if built && name in types && name !in p.importer && name !in p.generated
                then Search(s'.pools, name) == Some(types[name])
                else Search(s'.pools, name) == Search(p, name))
            && (built ==> Step(s', Build(file, types)) == Some(s'))
            && (!built ==> s' == s)
  {
    assert Accepts(s.pools.dynamic, types) <==> s.pools.dynamic.Keys !! types.Keys;
  }

  // ---- exactly when the cache can be seen ----

  /** A lookup gives what the pools give, for every name. */
  ghost predicate Invisible(s: State) {
    forall name :: Lookup(s.pools, s.cache, name) == Search(s.pools, name)
  }

  /** Whether an entry for the name, if it is taken, agrees with the pools. */
  predicate EntryAgrees(s: State, name: string, p: Prototype) {
    name in s.cache || Search(s.pools, name) == Some(p)
  }

  /** No type of a file that the importer takes is cached with another prototype. */
  predicate ImportAgrees(s: State, types: Types) {
    s.pools.importer.Keys !! types.Keys ==>
      forall n :: n in types && n in s.cache ==> s.cache[n] == types[n]
  }

  /** The same for compiled-in types, unless the importer has the type and is asked first. */
  predicate LinkAgrees(s: State, types: Types) {
    s.pools.generated.Keys !! types.Keys ==>
      forall n :: n in types && n in s.cache && n !in s.pools.importer ==> s.cache[n] == types[n]
  }

  /** What a caller can check before the step. */
  predicate Harmless(s: State, a: Action) {
    match a
    case Import(types) => ImportAgrees(s, types)
    case Link(types) => LinkAgrees(s, types)
    case Add(name, p) => EntryAgrees(s, name, p)
    case Insert(t) => At(s, t).AtInsert? ==> EntryAgrees(s, At(s, t).name, At(s, t).found)
    case _ => true
  }

  lemma {:induction false} EntryStaysInvisible(s: State, s': State, name: string, p: Prototype)
    requires Invisible(s) && s'.pools == s.pools && s'.cache == InsertNew(s.cache, name, p)
    ensures Invisible(s') <==> EntryAgrees(s, name, p)
  {
    assert name !in s.cache ==> Lookup(s'.pools, s'.cache, name) == Some(p);
    if EntryAgrees(s, name, p) {
      forall n ensures Lookup(s'.pools, s'.cache, n) == Search(s'.pools, n) {
        assert Lookup(s.pools, s.cache, n) == Search(s.pools, n);
      }
    }
  }

  lemma {:induction false} ImportStaysInvisible(s: State, types: Types)
    requires Invisible(s)
    ensures Invisible(Step(s, Import(types)).value) <==> ImportAgrees(s, types)
  {
    var s' := Step(s, Import(types)).value;
    forall n
      ensures Lookup(s'.pools, s'.cache, n) == Search(s'.pools, n)
         <==> (s.pools.importer.Keys !! types.Keys && n in types && n in s.cache ==> s.cache[n] == types[n])
    {
      assert Lookup(s.pools, s.cache, n) == Search(s.pools, n);
    }
  }

  lemma {:induction false} LinkStaysInvisible(s: State, types: Types)
    requires Invisible(s)
    ensures Invisible(Step(s, Link(types)).value) <==> LinkAgrees(s, types)
  {
    var s' := Step(s, Link(types)).value;
    forall n
      ensures Lookup(s'.pools, s'.cache, n) == Search(s'.pools, n)
         <==> (s.pools.generated.Keys !! types.Keys && n in types && n in s.cache && n !in s.pools.importer
               ==> s.cache[n] == types[n])
    {
      assert Lookup(s.pools, s.cache, n) == Search(s.pools, n);
    }
  }

  /** Building a file at run time never makes the cache visible: its pool is asked last. */
  lemma {:induction false} BuildStaysInvisible(s: State, file: string, types: Types)
    requires Invisible(s)
    ensures Invisible(Step(s, Build(file, types)).value)
  {
    var s' := Step(s, Build(file, types)).value;
    forall n ensures Lookup(s'.pools, s'.cache, n) == Search(s'.pools, n) {
      assert Lookup(s.pools, s.cache, n) == Search(s.pools, n);
    }
  }

  /** A step from a state with an invisible cache keeps it invisible exactly if it is harmless. */
  lemma {:induction false} StepStaysInvisible(s: State, a: Action)
    requires Invisible(s) && Step(s, a).Some?
    ensures Invisible(Step(s, a).value) <==> Harmless(s, a)
  {
    var s' := Step(s, a).value;
    match a
    case Import(types) => ImportStaysInvisible(s, types);
    case Link(types) => LinkStaysInvisible(s, types);
    case Build(file, types) => BuildStaysInvisible(s, file, types);
    case Add(name, p) => EntryStaysInvisible(s, s', name, p);
    case Insert(t) => EntryStaysInvisible(s, s', s.threads[t].name, s.threads[t].found);
    case _ =>
      assert s'.pools == s.pools && s'.cache == s.cache;
      forall n ensures Lookup(s'.pools, s'.cache, n) == Search(s'.pools, n) {
        assert Lookup(s.pools, s.cache, n) == Search(s.pools, n);
      }
  }

  predicate AllHarmless(s: State, actions: seq<Action>)
    requires Run(s, actions).Some?
    decreases actions
  {
    actions == [] || (Harmless(s, actions[0]) && AllHarmless(Step(s, actions[0]).value, actions[1..]))
  }

  /** The cache is invisible in every state of the run. */
  ghost predicate NeverSeen(s: State, actions: seq<Action>)
    requires Run(s, actions).Some?
    decreases actions
  {
    Invisible(s) && (actions != [] ==> NeverSeen(Step(s, actions[0]).value, actions[1..]))
  }

  /** Over a run with any races and any steps, the cache is never seen exactly if every step is harmless. */
  lemma {:induction false} NeverSeenIffHarmless(s: State, actions: seq<Action>)
    requires Invisible(s) && Run(s, actions).Some?
    ensures NeverSeen(s, actions) <==> AllHarmless(s, actions)
    decreases actions
  {
    if actions != [] {
      StepStaysInvisible(s, actions[0]);
      if Harmless(s, actions[0]) {
        NeverSeenIffHarmless(Step(s, actions[0]).value, actions[1..]);
      }
    }
  }

  // ---- once seen, always seen ----

  /** The importer makes prototypes of its own, and so do the compiled-in messages. */
  predicate OwnPrototypes(p: Pools) {
    && (forall n :: n in p.importer && n in p.generated ==> p.importer[n] != p.generated[n])
    && (forall n :: n in p.importer && n in p.dynamic ==> p.importer[n] != p.dynamic[n])
  }

  /** A cached prototype that the pools no longer give is never given by them again. */
  lemma {:induction false} ShadowedForGood(p: Pools, q: Pools, name: string, cached: Prototype)
    requires PoolsExtend(p, q) && OwnPrototypes(q)
    requires InSomePool(p, name, cached) && Search(p, name) != Some(cached)
    ensures Search(q, name) != Some(cached)
  {
  }

  lemma {:induction false} SeenForGood(s: State, actions: seq<Action>)
    requires FromPools(s) && Run(s, actions).Some? && !Invisible(s)
    requires OwnPrototypes(Run(s, actions).value.pools)
    ensures !Invisible(Run(s, actions).value)
  {
    CachedForGood(s, actions);
    var end := Run(s, actions).value;
    var name :| Lookup(s.pools, s.cache, name) != Search(s.pools, name);
    ShadowedForGood(s.pools, end.pools, name, s.cache[name]);
    assert Lookup(end.pools, end.cache, name) != Search(end.pools, name);
  }

  lemma {:induction false} InvisibleAtEnd(s: State, actions: seq<Action>)
    requires FromPools(s) && Invisible(s) && Run(s, actions).Some?
    requires forall i :: 0 <= i < |actions| ==> !actions[i].Add?
    requires OwnPrototypes(Run(s, actions).value.pools)
    ensures Invisible(Run(s, actions).value) <==> AllHarmless(s, actions)
    decreases actions
  {
    if actions != [] {
      assert !actions[0].Add?;
      assert forall i :: 0 <= i < |actions[1..]| ==> actions[1..][i] == actions[i + 1];
      var next := Step(s, actions[0]).value;
      StepStaysInvisible(s, actions[0]);
      StepFromPools(s, actions[0]);
      if Harmless(s, actions[0]) {
        InvisibleAtEnd(next, actions[1..]);
      } else {
        SeenForGood(next, actions[1..]);
      }
    }
  }

  /**
   The cache filled by lookups only: at the end of a run, whatever the races, it is invisible
   exactly if every step was harmless, that is, no file was taken by a pool that is asked
   earlier while one of its types was cached, and no lookup inserted what had been overtaken.
   */
  lemma {:induction false} InvisibleIffHarmless(pools: Pools, threads: nat, actions: seq<Action>)
    requires Run(Start(pools, threads), actions).Some?
    requires forall i :: 0 <= i < |actions| ==> !actions[i].Add?
    requires OwnPrototypes(Run(Start(pools, threads), actions).value.pools)
    ensures Invisible(Run(Start(pools, threads), actions).value) <==> AllHarmless(Start(pools, threads), actions)
  {
    InvisibleAtEnd(Start(pools, threads), actions);
  }

  lemma {:induction false} RunFirst(s: State, a: Action, next: State, rest: seq<Action>)
    requires Step(s, a) == Some(next)
    ensures Run(s, [a] + rest) == Run(next, rest)
  {
    assert ([a] + rest)[1..] == rest;
  }

  /** A thread that finds the name in the pool of messages built at run time. */
  lemma {:induction false} FindsBuilt(s: State, name: string, rest: seq<Action>)
    requires |s.threads| == 1 && s.threads[0] == Idle
    requires name !in s.cache && name !in s.pools.importer && name !in s.pools.generated && name in s.pools.dynamic
    ensures var found := s.pools.dynamic[name];
            Run(s, [Call(0, name)] + ([AskImporter(0)] + ([AskGenerated(0)] + ([AskDynamic(0)] + ([Insert(0)] + rest)))))
            == Run(s.(cache := s.cache[name := found], answers := s.answers + [Found(name, found)]), rest)
  {
    var found := s.pools.dynamic[name];
    var s1 := Goto(s, 0, AtImporter(name, s.pools));
    var s2 := Goto(s, 0, AtGenerated(name, s.pools));
    var s3 := Goto(s, 0, AtDynamic(name, s.pools));
    var s4 := Goto(s, 0, AtInsert(name, found));
    var s5 := s.(cache := s.cache[name := found], answers := s.answers + [Found(name, found)]);
    assert s1.threads[0 := s2.threads[0]] == s2.threads;
    assert s2.threads[0 := s3.threads[0]] == s3.threads;
    assert s3.threads[0 := s4.threads[0]] == s4.threads;
    assert s4.threads[0 := Idle] == s.threads;
    RunFirst(s, Call(0, name), s1, [AskImporter(0)] + ([AskGenerated(0)] + ([AskDynamic(0)] + ([Insert(0)] + rest))));
    RunFirst(s1, AskImporter(0), s2, [AskGenerated(0)] + ([AskDynamic(0)] + ([Insert(0)] + rest)));
    RunFirst(s2, AskGenerated(0), s3, [AskDynamic(0)] + ([Insert(0)] + rest));
    RunFirst(s3, AskDynamic(0), s4, [Insert(0)] + rest);
    RunFirst(s4, Insert(0), s5, rest);
  }

  /**
   A type built at run time and looked up, then imported with the same name: the cache goes on
   answering with the old prototype, which the pools no longer give.
   */
  lemma {:induction false} ImportGoesUnseen(name: string, before: Prototype, after: Prototype) returns (actions: seq<Action>)
    requires before != after
    ensures forall i :: 0 <= i < |actions| ==> !actions[i].Add?
    ensures var r := Run(Start(Pools(map[], map[], map[], {}), 1), actions);
            && r.Some?
            && Lookup(r.value.pools, r.value.cache, name) == Some(before)
            && Search(r.value.pools, name) == Some(after)
  {
    var s := Start(Pools(map[], map[], map[], {}), 1);
    var built := s.(pools := BuildFile(s.pools, "f", map[name := before]));
    assert s.pools.dynamic + map[name := before] == map[name := before];
    var cached := built.(cache := map[name := before], answers := [Found(name, before)]);
    var load := Import(map[name := after]);
    var imported := cached.(pools := cached.pools.(importer := map[name := after]));
    assert built.cache[name := before] == cached.cache;
    assert built.answers + [Found(name, before)] == cached.answers;
    assert cached.pools.importer + map[name := after] == map[name := after];
    var asking := [Call(0, name)] + ([AskImporter(0)] + ([AskGenerated(0)] + ([AskDynamic(0)] + ([Insert(0)] + ([load] + [])))));
    RunFirst(s, Build("f", map[name := before]), built, asking);
    FindsBuilt(built, name, [load] + []);
    RunFirst(cached, load, imported, []);
    actions := [Build("f", map[name := before])] + asking;
  }

  // ---- the object ----

  class MessageHelper {
    var pools: Pools
    var cache: Types

    constructor (pools: Pools)
      ensures this.pools == pools && cache == map[]
    {
      this.pools, cache := pools, map[];
    }

    /** `getPbPrototype`, run by a single thread. */
    method GetPbPrototype(name: string) returns (result: Option<Prototype>)
      modifies this`cache
      ensures result == Lookup(pools, old(cache), name)
      ensures cache == if result.Some? then InsertNew(old(cache), name, result.value) else old(cache)
      ensures Lookup(pools, cache, name) == result
    {
      if name in cache {
        return Some(cache[name]);
      }
      var found: Prototype;
      if name in pools.importer {
        found := pools.importer[name];
      } else if name in pools.generated {
        found := pools.generated[name];
      } else if name in pools.dynamic {
        found := pools.dynamic[name];
      } else {
        return None;
      }
      cache := InsertNew(cache, name, found);
      return Some(found);
    }

    /** `addPbPrototype`; a null message is ignored. */
    method AddPbPrototype(msg: Option<(string, Prototype)>)
      modifies this`cache
      ensures cache == if msg.None? then old(cache) else InsertNew(old(cache), msg.value.0, msg.value.1)
    {
      if msg.Some? {
        cache := InsertNew(cache, msg.value.0, msg.value.1);
      }
    }

    /** `registerDynamicMessage` for a file description. */
    method RegisterDynamicMessage(file: string, types: Types)
      modifies this`pools
      ensures pools == BuildFile(old(pools), file, types)
    {
      if file in pools.dynamicFiles {
        return;
      }
      if pools.dynamic.Keys !! types.Keys {
        pools := pools.(dynamic := Grow(pools.dynamic, types), dynamicFiles := pools.dynamicFiles + {file});
      }
    }

    method IsMessageRegistered(name: string) returns (registered: bool)
      modifies this`cache
      ensures registered == Lookup(pools, old(cache), name).Some?
      ensures Lookup(pools, cache, name) == Lookup(pools, old(cache), name)
    {
      var prototype := GetPbPrototype(name);
      registered := prototype.Some?;
    }
  }
}
