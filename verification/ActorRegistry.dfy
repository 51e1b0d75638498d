/**
 The actor registry: registering a module resolves the operations of its actors against the
 registry while the registry itself grows.
 */
module ActorRegistry {
  import opened Options
  import opened OrderedMap
  import opened Descriptor

  type Actors = seq<Entry<ActorDescriptor>>

  /** What the descriptor objects hold; registration does not change it. */
  type Known = map<ActorDescriptor, Actor>

  /** The registered actors and the resolved operations of the descriptor objects. */
  datatype Registry = Registry(actors: Actors, resolved: map<ActorDescriptor, Ops>)

  // ---- one actor ----

  /** The descriptor a consumed name stands for: the actor itself, the registry, or the same module. */
  function Provider(actors: Actors, siblings: Actors, name: string, d: ActorDescriptor, n: string): Option<ActorDescriptor> {
    if n == name then Some(d)
    else if Find(actors, n).Some? then Find(actors, n)
    else Find(siblings, n)
  }

  function OutsOf(known: Known, d: ActorDescriptor): Ops {
    if d in known then known[d].outs else []
  }

  /** The operations after consuming the named actors in order, up to the first that is not found. */
  function Consume(
      known: Known, actors: Actors, siblings: Actors, name: string, d: ActorDescriptor, consumes: Names, acc: Ops): (Ops, bool)
    decreases |consumes|
  {
    if consumes == [] then (acc, true)
    else
      var p := Provider(actors, siblings, name, d, consumes[0].key);
      if p.None? then (acc, false)
      else Consume(known, actors, siblings, name, d, consumes[1..], InsertAll(acc, OutsOf(known, p.value)))
  }

  /** Registering one actor whose operations have so far resolved to `prior`. */
  function Resolve(known: Known, actors: Actors, siblings: Actors, e: Entry<ActorDescriptor>, prior: Ops): (Ops, bool)
    requires e.value in known
  {
    Consume(known, actors, siblings, e.key, e.value, known[e.value].consumes, InsertAll(prior, known[e.value].ins))
  }

  // ---- all actors of a module ----

  function RegisterOne(known: Known, siblings: Actors, r: Registry, e: Entry<ActorDescriptor>): (Registry, bool)
    requires e.value in known && e.value in r.resolved
  {
    var (ops, ok) := Resolve(known, r.actors, siblings, e, r.resolved[e.value]);
    (Registry(if ok then Insert(r.actors, e.key, e.value) else r.actors, r.resolved[e.value := ops]), ok)
  }

  /** Registering the actors one after the other, up to the first that fails. */
  function RegisterActors(known: Known, siblings: Actors, r: Registry, entries: Actors): (result: (Registry, bool))
    requires forall i :: 0 <= i < |entries| ==> entries[i].value in known && entries[i].value in r.resolved
    ensures result.0.resolved.Keys == r.resolved.Keys
    decreases |entries|
  {
    if entries == [] then (r, true)
    else
      var (next, ok) := RegisterOne(known, siblings, r, entries[0]);
      if ok then RegisterActors(known, siblings, next, entries[1..]) else (next, false)
  }

  lemma {:induction false} RegisterNext(known: Known, siblings: Actors, r: Registry, entries: Actors, i: nat)
    requires i < |entries|
    requires Objects(entries) <= known.Keys && Objects(entries) <= r.resolved.Keys
    ensures forall j :: 0 <= j < |entries| ==> entries[j].value in known && entries[j].value in r.resolved
    ensures var (next, ok) := RegisterOne(known, siblings, r, entries[i]);
            RegisterActors(known, siblings, r, entries[i..])
            == if ok then RegisterActors(known, siblings, next, entries[i + 1..]) else (next, false)
  {
    assert forall j :: 0 <= j < |entries| ==> entries[j].value in Objects(entries);
    assert entries[i..][0] == entries[i] && entries[i..][1..] == entries[i + 1..];
  }

  // ---- what a resolution finds ----

  /** The operation in the first of the maps that has it. */
  function FirstFound(maps: seq<Ops>, key: string): Option<Op> {
    if maps == [] then None
    else if Find(maps[0], key).Some? then Find(maps[0], key)
    else FirstFound(maps[1..], key)
  }

  /** The out-operations of the consumed actors in order. */
  function ConsumedOuts(known: Known, actors: Actors, siblings: Actors, name: string, d: ActorDescriptor, consumes: Names): seq<Ops> {
    if consumes == [] then []
    else
      var p := Provider(actors, siblings, name, d, consumes[0].key);
      [if p.None? then [] else OutsOf(known, p.value)]
      + ConsumedOuts(known, actors, siblings, name, d, consumes[1..])
  }

  predicate AllFound(actors: Actors, siblings: Actors, name: string, d: ActorDescriptor, consumes: Names) {
    forall i :: 0 <= i < |consumes| ==> Provider(actors, siblings, name, d, consumes[i].key).Some?
  }

  lemma {:induction false} ConsumeFinds(
      known: Known, actors: Actors, siblings: Actors, name: string, d: ActorDescriptor, consumes: Names, acc: Ops, key: string)
    requires Ascending(acc)
    ensures var (ops, ok) := Consume(known, actors, siblings, name, d, consumes, acc);
            && ok == AllFound(actors, siblings, name, d, consumes)
            && Ascending(ops)
            && (ok ==> Find(ops, key)
                       == FirstFound([acc] + ConsumedOuts(known, actors, siblings, name, d, consumes), key))
    decreases |consumes|
  {
    if consumes == [] {
      FirstFoundCons(acc, [], key);
    } else {
      var p := Provider(actors, siblings, name, d, consumes[0].key);
      if p.Some? {
        var outs := OutsOf(known, p.value);
        var rest := ConsumedOuts(known, actors, siblings, name, d, consumes[1..]);
        InsertAllLaws(acc, outs, key);
        ConsumeFinds(known, actors, siblings, name, d, consumes[1..], InsertAll(acc, outs), key);
        FirstFoundCons(InsertAll(acc, outs), rest, key);
        FirstFoundCons(acc, [outs] + rest, key);
        FirstFoundCons(outs, rest, key);
        assert forall i :: 1 <= i < |consumes| ==> consumes[i] == consumes[1..][i - 1];
      }
    }
  }

  lemma {:induction false} FirstFoundCons(m: Ops, rest: seq<Ops>, key: string)
    ensures FirstFound([m] + rest, key) == if Find(m, key).Some? then Find(m, key) else FirstFound(rest, key)
  {
    assert ([m] + rest)[1..] == rest;
  }

  /** Everything an actor's consumed names need is there. */
  predicate Satisfied(known: Known, actors: Actors, siblings: Actors, e: Entry<ActorDescriptor>)
    requires e.value in known
  {
    AllFound(actors, siblings, e.key, e.value, known[e.value].consumes)
  }

  /**
   Registration of one actor succeeds exactly if every consumed name is its own, registered, or
   in the module; then a resolved operation is the first found in the earlier resolution, the
   in-operations, and the out-operations of the consumed actors in the order of their names.
   */
  lemma {:induction false} ResolvedOperations(
      known: Known, actors: Actors, siblings: Actors, e: Entry<ActorDescriptor>, prior: Ops, key: string)
    requires e.value in known && Ascending(prior)
    ensures var (ops, ok) := Resolve(known, actors, siblings, e, prior);
            && ok == Satisfied(known, actors, siblings, e)
            && Ascending(ops)
            && (ok ==>
                  var a := known[e.value];
                  Find(ops, key) == FirstFound(
                    [prior] + ([a.ins] + ConsumedOuts(known, actors, siblings, e.key, e.value, a.consumes)), key))
  {
    var a := known[e.value];
    var outs := ConsumedOuts(known, actors, siblings, e.key, e.value, a.consumes);
    InsertAllLaws(prior, a.ins, key);
    ConsumeFinds(known, actors, siblings, e.key, e.value, a.consumes, InsertAll(prior, a.ins), key);
    FirstFoundCons(InsertAll(prior, a.ins), outs, key);
    FirstFoundCons(prior, [a.ins] + outs, key);
    FirstFoundCons(a.ins, outs, key);
  }

  // ---- the same in terms of the entries ----

  /** The descriptor p is what the consumed name n stands for: the actor itself under its own name, else the registered actor, else the one in the module. */
  predicate StandsFor(actors: Actors, siblings: Actors, e: Entry<ActorDescriptor>, n: string, p: ActorDescriptor) {
    if n == e.key then p == e.value
    else if exists i :: 0 <= i < |actors| && actors[i].key == n then Entry(n, p) in actors
    else Entry(n, p) in siblings
  }

  /** Some descriptor is. */
  predicate Provided(actors: Actors, siblings: Actors, e: Entry<ActorDescriptor>, n: string) {
    || n == e.key
    || (exists i :: 0 <= i < |actors| && actors[i].key == n)
    || (exists i :: 0 <= i < |siblings| && siblings[i].key == n)
  }

  lemma {:induction false} ProviderStandsFor(
      actors: Actors, siblings: Actors, e: Entry<ActorDescriptor>, n: string, p: ActorDescriptor)
    requires Ascending(actors) && Ascending(siblings)
    ensures Provider(actors, siblings, e.key, e.value, n) == Some(p) <==> StandsFor(actors, siblings, e, n, p)
    ensures Provider(actors, siblings, e.key, e.value, n).Some? <==> Provided(actors, siblings, e, n)
  {
    FindsEntry(actors, n, p);
    FindsEntry(siblings, n, p);
  }

  /** Success: every consumed name is the actor's own, or registered, or in the module. */
  lemma {:induction false} RegistersIff(
      known: Known, actors: Actors, siblings: Actors, e: Entry<ActorDescriptor>, prior: Ops)
    requires e.value in known && Ascending(prior) && Ascending(actors) && Ascending(siblings)
    ensures Resolve(known, actors, siblings, e, prior).1
       <==> forall i :: 0 <= i < |known[e.value].consumes| ==>
                          Provided(actors, siblings, e, known[e.value].consumes[i].key)
  {
    var consumes := known[e.value].consumes;
    ResolvedOperations(known, actors, siblings, e, prior, "");
    forall i | 0 <= i < |consumes|
      ensures Provider(actors, siblings, e.key, e.value, consumes[i].key).Some?
         <==> Provided(actors, siblings, e, consumes[i].key)
    {
      ProviderStandsFor(actors, siblings, e, consumes[i].key, e.value);
    }
  }

  /** The out-operations that the first n of the consumed actors do not offer under the name. */
  predicate NotOffered(known: Known, providers: seq<ActorDescriptor>, n: nat, key: string)
    requires n <= |providers|
  {
    forall i :: 0 <= i < n ==>
                  providers[i] in known
                  && forall j :: 0 <= j < |known[providers[i]].outs| ==> known[providers[i]].outs[j].key != key
  }

  lemma {:induction false} FirstOffer(
      known: Known, actors: Actors, siblings: Actors, e: Entry<ActorDescriptor>, consumes: Names,
      providers: seq<ActorDescriptor>, n: nat, key: string)
    requires Ascending(actors) && Ascending(siblings) && |providers| == |consumes| && n <= |consumes|
    requires forall i :: 0 <= i < |consumes| ==> StandsFor(actors, siblings, e, consumes[i].key, providers[i])
    requires NotOffered(known, providers, n, key)
    requires n < |consumes| ==> providers[n] in known && Ascending(known[providers[n]].outs)
                                && exists op :: Entry(key, op) in known[providers[n]].outs
    ensures var found := FirstFound(ConsumedOuts(known, actors, siblings, e.key, e.value, consumes), key);
            if n < |consumes| then found.Some? && Entry(key, found.value) in known[providers[n]].outs
            else found.None?
    decreases |consumes|
  {
    if consumes != [] {
      var outs := OutsOf(known, providers[0]);
      var rest := ConsumedOuts(known, actors, siblings, e.key, e.value, consumes[1..]);
      ProviderStandsFor(actors, siblings, e, consumes[0].key, providers[0]);
      FirstFoundCons(outs, rest, key);
      if n == 0 {
        var op :| Entry(key, op) in known[providers[0]].outs;
        FindsEntry(outs, key, op);
      } else {
        NothingFound(outs, key);
        forall i | 0 <= i < n - 1
          ensures providers[1..][i] in known
          ensures forall j :: 0 <= j < |known[providers[1..][i]].outs| ==> known[providers[1..][i]].outs[j].key != key
        {
          assert providers[1..][i] == providers[i + 1];
        }
        FirstOffer(known, actors, siblings, e, consumes[1..], providers[1..], n - 1, key);
      }
    }
  }

  lemma {:induction false} NothingFound(m: Ops, key: string)
    requires forall j :: 0 <= j < |m| ==> m[j].key != key
    ensures Find(m, key).None?
  {
    if m != [] {
      NothingFound(m[1..], key);
    }
  }

  /**
   Where a resolved operation comes from, after a registration that succeeds: the earlier
   resolution, else the in-operations, else the out-operations of the first consumed actor, in
   the order of the consumed names, that offers the name.
   */
  lemma {:induction false} ResolvedSource(
      known: Known, actors: Actors, siblings: Actors, e: Entry<ActorDescriptor>, prior: Ops,
      providers: seq<ActorDescriptor>, n: nat, key: string, op: Op)
    requires e.value in known && Ascending(prior) && Ascending(actors) && Ascending(siblings)
    requires Ascending(known[e.value].ins)
    requires Resolve(known, actors, siblings, e, prior).1
    requires var consumes := known[e.value].consumes;
             && |providers| == |consumes| && n <= |consumes|
             && forall i :: 0 <= i < |consumes| ==> StandsFor(actors, siblings, e, consumes[i].key, providers[i])
    requires NotOffered(known, providers, n, key)
    requires n < |providers| ==> providers[n] in known && Ascending(known[providers[n]].outs)
                                 && exists o :: Entry(key, o) in known[providers[n]].outs
    ensures var ops := Resolve(known, actors, siblings, e, prior).0;
            Ascending(ops)
            && (Entry(key, op) in ops
                <==> if exists i :: 0 <= i < |prior| && prior[i].key == key then Entry(key, op) in prior
                     else if exists i :: 0 <= i < |known[e.value].ins| && known[e.value].ins[i].key == key
                     then Entry(key, op) in known[e.value].ins
                     else n < |providers| && Entry(key, op) in known[providers[n]].outs)
  {
    var a := known[e.value];
    var outs := ConsumedOuts(known, actors, siblings, e.key, e.value, a.consumes);
    ResolvedOperations(known, actors, siblings, e, prior, key);
    FirstFoundCons(prior, [a.ins] + outs, key);
    FirstFoundCons(a.ins, outs, key);
    FirstOffer(known, actors, siblings, e, a.consumes, providers, n, key);
    FindsEntry(Resolve(known, actors, siblings, e, prior).0, key, op);
    FindsEntry(prior, key, op);
    FindsEntry(a.ins, key, op);
    if n < |providers| {
      FindsEntry(known[providers[n]].outs, key, op);
      FindsEntry(known[providers[n]].outs, key, if FirstFound(outs, key).Some? then FirstFound(outs, key).value else op);
    }
  }

  // ---- the growing registry ----

  /** Lookups do not see that an actor of the module has been registered meanwhile. */
  ghost predicate SameProviders(a: Actors, b: Actors, siblings: Actors) {
    forall n :: Find(a, n) == Find(b, n) || (Find(a, n).None? && Find(b, n) == Find(siblings, n))
  }

  lemma {:induction false} ProviderIsConstant(a: Actors, b: Actors, siblings: Actors, name: string, d: ActorDescriptor, n: string)
    requires SameProviders(a, b, siblings)
    ensures Provider(a, siblings, name, d, n) == Provider(b, siblings, name, d, n)
  {
    assert Find(a, n) == Find(b, n) || (Find(a, n).None? && Find(b, n) == Find(siblings, n));
  }

  lemma {:induction false} ConsumeIsConstant(
      known: Known, a: Actors, b: Actors, siblings: Actors, name: string, d: ActorDescriptor, consumes: Names, acc: Ops)
    requires SameProviders(a, b, siblings)
    ensures Consume(known, a, siblings, name, d, consumes, acc) == Consume(known, b, siblings, name, d, consumes, acc)
    decreases |consumes|
  {
    if consumes != [] {
      var n := consumes[0].key;
      ProviderIsConstant(a, b, siblings, name, d, n);
      var p := Provider(a, siblings, name, d, n);
      if p.Some? {
        ConsumeIsConstant(known, a, b, siblings, name, d, consumes[1..], InsertAll(acc, OutsOf(known, p.value)));
      }
    }
  }

  lemma {:induction false} ResolveIsConstant(
      known: Known, a: Actors, b: Actors, siblings: Actors, e: Entry<ActorDescriptor>, prior: Ops)
    requires e.value in known && SameProviders(a, b, siblings)
    ensures Resolve(known, a, siblings, e, prior) == Resolve(known, b, siblings, e, prior)
  {
    ConsumeIsConstant(known, a, b, siblings, e.key, e.value, known[e.value].consumes, InsertAll(prior, known[e.value].ins));
  }

  /** The entries are actors of the module, and no object is there twice. */
  predicate FromModule(siblings: Actors, entries: Actors) {
    && (forall i :: 0 <= i < |entries| ==> Find(siblings, entries[i].key) == Some(entries[i].value))
    && (forall i, j :: 0 <= i < j < |entries| ==> entries[i].value != entries[j].value)
  }

  predicate Covers(known: Known, r: Registry, entries: Actors) {
    && Ascending(r.actors)
    && forall i :: 0 <= i < |entries| ==>
                     && entries[i].value in known
                     && entries[i].value in r.resolved
                     && Ascending(r.resolved[entries[i].value])
  }

  predicate AllSatisfied(known: Known, actors: Actors, siblings: Actors, entries: Actors)
    requires forall i :: 0 <= i < |entries| ==> entries[i].value in known
  {
    forall i :: 0 <= i < |entries| ==> Satisfied(known, actors, siblings, entries[i])
  }

  /** The resolved operations: each actor of the module against the registry as it was before. */
  predicate Outcome(known: Known, base: Actors, siblings: Actors, r: Registry, entries: Actors, r': Registry)
    requires Covers(known, r, entries)
  {
    && r'.resolved.Keys == r.resolved.Keys
    && (forall i :: 0 <= i < |entries| ==>
          r'.resolved[entries[i].value]
          == Resolve(known, base, siblings, entries[i], r.resolved[entries[i].value]).0)
    && (forall d :: d in r.resolved && d !in Objects(entries) ==> r'.resolved[d] == r.resolved[d])
  }

  lemma {:induction false} InsertKeepsProviders(base: Actors, actors: Actors, siblings: Actors, e: Entry<ActorDescriptor>)
    requires Ascending(actors) && SameProviders(base, actors, siblings)
    requires Find(siblings, e.key) == Some(e.value)
    ensures Ascending(Insert(actors, e.key, e.value))
    ensures SameProviders(base, Insert(actors, e.key, e.value), siblings)
  {
    InsertLaws(actors, e.key, e.value, e.key);
    forall n
      ensures var after := Insert(actors, e.key, e.value);
              Find(base, n) == Find(after, n) || (Find(base, n).None? && Find(after, n) == Find(siblings, n))
    {
      InsertLaws(actors, e.key, e.value, n);
      assert Find(base, n) == Find(actors, n) || (Find(base, n).None? && Find(actors, n) == Find(siblings, n));
    }
  }

  /** Registering the first of the entries, judged by the registry as it was. */
  lemma {:induction false} FirstRegistered(known: Known, base: Actors, siblings: Actors, r: Registry, entries: Actors)
    requires entries != [] && Covers(known, r, entries) && FromModule(siblings, entries)
    requires SameProviders(base, r.actors, siblings)
    ensures var e := entries[0];
            var (next, ok) := RegisterOne(known, siblings, r, e);
            && ok == Satisfied(known, base, siblings, e)
            && next.resolved == r.resolved[e.value := Resolve(known, base, siblings, e, r.resolved[e.value]).0]
            && (ok ==>
                  && next.actors == Insert(r.actors, e.key, e.value)
                  && FromModule(siblings, entries[1..]) && Covers(known, next, entries[1..])
                  && SameProviders(base, next.actors, siblings))
  {
    var e := entries[0];
    var prior := r.resolved[e.value];
    ResolveIsConstant(known, base, r.actors, siblings, e, prior);
    ResolvedOperations(known, base, siblings, e, prior, "");
    InsertKeepsProviders(base, r.actors, siblings, e);
  }

  lemma {:induction false} RegisterFromBase(
      known: Known, base: Actors, siblings: Actors, r: Registry, entries: Actors)
    requires Covers(known, r, entries) && FromModule(siblings, entries)
    requires SameProviders(base, r.actors, siblings)
    ensures var (r', ok) := RegisterActors(known, siblings, r, entries);
            && ok == AllSatisfied(known, base, siblings, entries)
            && (ok ==> r'.actors == InsertAll(r.actors, entries) && Outcome(known, base, siblings, r, entries, r'))
    decreases |entries|
  {
    if entries != [] {
      FirstRegistered(known, base, siblings, r, entries);
      SatisfiedCons(known, base, siblings, entries);
      var (next, ok) := RegisterOne(known, siblings, r, entries[0]);
      if ok {
        RegisterFromBase(known, base, siblings, next, entries[1..]);
        if AllSatisfied(known, base, siblings, entries) {
          OutcomeCons(known, base, siblings, r, entries, RegisterActors(known, siblings, next, entries[1..]).0);
        }
      }
    }
  }

  lemma {:induction false} SatisfiedCons(known: Known, actors: Actors, siblings: Actors, entries: Actors)
    requires entries != [] && forall i :: 0 <= i < |entries| ==> entries[i].value in known
    ensures AllSatisfied(known, actors, siblings, entries)
         == (Satisfied(known, actors, siblings, entries[0]) && AllSatisfied(known, actors, siblings, entries[1..]))
  {
    assert forall i :: 1 <= i < |entries| ==> entries[i] == entries[1..][i - 1];
  }

  lemma {:induction false} OutcomeCons(known: Known, base: Actors, siblings: Actors, r: Registry, entries: Actors, r': Registry)
    requires entries != [] && Covers(known, r, entries) && FromModule(siblings, entries)
    requires var e := entries[0];
             var ops := Resolve(known, base, siblings, e, r.resolved[e.value]).0;
             var next := Registry(Insert(r.actors, e.key, e.value), r.resolved[e.value := ops]);
             Covers(known, next, entries[1..]) && Outcome(known, base, siblings, next, entries[1..], r')
    ensures Outcome(known, base, siblings, r, entries, r')
  {
    var e, rest := entries[0], entries[1..];
    var ops := Resolve(known, base, siblings, e, r.resolved[e.value]).0;
    var next := Registry(Insert(r.actors, e.key, e.value), r.resolved[e.value := ops]);
    forall i | 0 <= i < |entries|
      ensures r'.resolved[entries[i].value] == Resolve(known, base, siblings, entries[i], r.resolved[entries[i].value]).0
    {
      if i == 0 {
        assert e.value !in Objects(rest);
        assert r'.resolved[e.value] == next.resolved[e.value];
      } else {
        assert entries[i] == rest[i - 1];
      }
    }
    forall d | d in r.resolved && d !in Objects(entries) ensures r'.resolved[d] == r.resolved[d] {
      assert entries[0].value in Objects(entries);
      assert forall i :: 0 <= i < |rest| ==> rest[i] == entries[i + 1];
      assert d !in Objects(rest);
    }
  }

  /**
   Registering the actors of a module, in whatever order: it succeeds exactly if every consumed
   name is found in the module or in the registry as it was; then the registry has gained the
   module's actors, and every actor is resolved against the registry as it was.
   */
  lemma {:induction false} RegistrationResult(known: Known, siblings: Actors, r: Registry, entries: Actors)
    requires Covers(known, r, entries) && FromModule(siblings, entries)
    ensures var (r', ok) := RegisterActors(known, siblings, r, entries);
            && ok == AllSatisfied(known, r.actors, siblings, entries)
            && (ok ==> r'.actors == InsertAll(r.actors, entries)
                       && Outcome(known, r.actors, siblings, r, entries, r'))
  {
    RegisterFromBase(known, r.actors, siblings, r, entries);
  }

  /** The same in terms of the entries: when a module can be registered, and which actors are registered then. */
  lemma {:induction false} ModuleRegistersIff(
      known: Known, siblings: Actors, r: Registry, entries: Actors, e: Entry<ActorDescriptor>)
    requires Covers(known, r, entries) && FromModule(siblings, entries) && Ascending(siblings)
    ensures var (r', ok) := RegisterActors(known, siblings, r, entries);
            && (ok <==> forall i, j :: 0 <= i < |entries| && 0 <= j < |known[entries[i].value].consumes|
                          ==> Provided(r.actors, siblings, entries[i], known[entries[i].value].consumes[j].key))
            && (ok ==> Ascending(r'.actors)
                       && (e in r'.actors <==> if exists i :: 0 <= i < |r.actors| && r.actors[i].key == e.key
                                               then e in r.actors else e in entries))
  {
    RegistrationResult(known, siblings, r, entries);
    forall i, j | 0 <= i < |entries| && 0 <= j < |known[entries[i].value].consumes|
      ensures var n := known[entries[i].value].consumes[j].key;
              Provider(r.actors, siblings, entries[i].key, entries[i].value, n).Some?
              <==> Provided(r.actors, siblings, entries[i], n)
    {
      ProviderStandsFor(r.actors, siblings, entries[i], known[entries[i].value].consumes[j].key, entries[i].value);
    }
    AllProvided(known, r.actors, siblings, entries);
    if RegisterActors(known, siblings, r, entries).1 {
      InsertAllLaws(r.actors, entries, e.key);
      FindsEntry(InsertAll(r.actors, entries), e.key, e.value);
      FindsEntry(r.actors, e.key, e.value);
      FindInOrder(siblings, entries, e.key);
      EntryOfModule(siblings, entries, e);
    }
  }

  lemma {:induction false} AllProvided(known: Known, actors: Actors, siblings: Actors, entries: Actors)
    requires forall i :: 0 <= i < |entries| ==> entries[i].value in known
    ensures AllSatisfied(known, actors, siblings, entries)
       <==> forall i, j :: 0 <= i < |entries| && 0 <= j < |known[entries[i].value].consumes|
              ==> Provider(actors, siblings, entries[i].key, entries[i].value,
                           known[entries[i].value].consumes[j].key).Some?
  {
    if forall i, j :: 0 <= i < |entries| && 0 <= j < |known[entries[i].value].consumes|
         ==> Provider(actors, siblings, entries[i].key, entries[i].value, known[entries[i].value].consumes[j].key).Some?
    {
      forall i | 0 <= i < |entries| ensures Satisfied(known, actors, siblings, entries[i]) {
      }
    }
    if AllSatisfied(known, actors, siblings, entries) {
      forall i, j | 0 <= i < |entries| && 0 <= j < |known[entries[i].value].consumes|
        ensures Provider(actors, siblings, entries[i].key, entries[i].value, known[entries[i].value].consumes[j].key).Some?
      {
        assert Satisfied(known, actors, siblings, entries[i]);
      }
    }
  }

  lemma {:induction false} EntryOfModule(siblings: Actors, entries: Actors, e: Entry<ActorDescriptor>)
    requires FromModule(siblings, entries)
    ensures Find(entries, e.key) == Some(e.value) <==> e in entries
  {
    FindInOrder(siblings, entries, e.key);
    if Find(entries, e.key) == Some(e.value) {
      var x :| x in entries && x.key == e.key;
      assert x == e;
    }
  }

  // ---- order ----

  /** The same actors in some order. */
  predicate Reordered(a: Actors, b: Actors) {
    multiset(a) == multiset(b)
  }

  lemma {:induction false} FindInOrder(siblings: Actors, entries: Actors, key: string)
    requires FromModule(siblings, entries)
    ensures Find(entries, key).Some? ==> Find(entries, key) == Find(siblings, key)
    ensures (exists e :: e in entries && e.key == key) <==> Find(entries, key).Some?
  {
    if entries != [] {
      assert FromModule(siblings, entries[1..]);
      FindInOrder(siblings, entries[1..], key);
      assert forall e :: e in entries <==> e == entries[0] || e in entries[1..];
    }
  }

  lemma {:induction false} ReorderedMembers(a: Actors, b: Actors)
    requires Reordered(a, b)
    ensures forall e :: e in a <==> e in b
  {
    forall e ensures e in a <==> e in b {
      assert e in a <==> e in multiset(a);
      assert e in b <==> e in multiset(b);
    }
  }

  lemma {:induction false} ReorderedFind(siblings: Actors, a: Actors, b: Actors, key: string)
    requires FromModule(siblings, a) && FromModule(siblings, b) && Reordered(a, b)
    ensures Find(a, key) == Find(b, key)
  {
    ReorderedMembers(a, b);
    FindInOrder(siblings, a, key);
    FindInOrder(siblings, b, key);
  }

  lemma {:induction false} ReorderedSatisfied(known: Known, actors: Actors, siblings: Actors, a: Actors, b: Actors)
    requires Reordered(a, b)
    requires forall i :: 0 <= i < |a| ==> a[i].value in known
    requires forall i :: 0 <= i < |b| ==> b[i].value in known
    requires AllSatisfied(known, actors, siblings, a)
    ensures AllSatisfied(known, actors, siblings, b)
  {
    ReorderedMembers(a, b);
    forall i | 0 <= i < |b| ensures Satisfied(known, actors, siblings, b[i]) {
      assert b[i] in a;
    }
  }

  lemma {:induction false} ReorderedOutcome(
      known: Known, base: Actors, siblings: Actors, r: Registry, a: Actors, b: Actors, ra: Registry, rb: Registry)
    requires Covers(known, r, a) && Covers(known, r, b) && Reordered(a, b)
    requires Outcome(known, base, siblings, r, a, ra) && Outcome(known, base, siblings, r, b, rb)
    ensures ra.resolved == rb.resolved
  {
    ReorderedMembers(a, b);
    forall d | d in r.resolved ensures ra.resolved[d] == rb.resolved[d] {
      if d in Objects(a) {
        var i :| 0 <= i < |a| && a[i].value == d;
        assert a[i] in b;
        var j :| 0 <= j < |b| && b[j] == a[i];
      } else if d in Objects(b) {
        var j :| 0 <= j < |b| && b[j].value == d;
        assert b[j] in a;
      }
    }
  }

  /** The order in which the actors of a module are registered makes no difference to a registration that succeeds. */
  lemma {:induction false} OrderDoesNotMatter(known: Known, siblings: Actors, r: Registry, a: Actors, b: Actors)
    requires Covers(known, r, a) && Covers(known, r, b)
    requires FromModule(siblings, a) && FromModule(siblings, b) && Reordered(a, b)
    ensures var (ra, oka) := RegisterActors(known, siblings, r, a);
            var (rb, okb) := RegisterActors(known, siblings, r, b);
            oka == okb && (oka ==> ra == rb)
  {
    RegistrationResult(known, siblings, r, a);
    RegistrationResult(known, siblings, r, b);
    var (ra, oka) := RegisterActors(known, siblings, r, a);
    var (rb, okb) := RegisterActors(known, siblings, r, b);
    if oka {
      ReorderedSatisfied(known, r.actors, siblings, a, b);
    }
    if okb {
      ReorderedSatisfied(known, r.actors, siblings, b, a);
    }
    if oka && okb {
      ReorderedOutcome(known, r.actors, siblings, r, a, b, ra, rb);
      InsertAllLaws(r.actors, a, "");
      InsertAllLaws(r.actors, b, "");
      forall key ensures Find(ra.actors, key) == Find(rb.actors, key) {
        InsertAllLaws(r.actors, a, key);
        InsertAllLaws(r.actors, b, key);
        ReorderedFind(siblings, a, b, key);
      }
      SameMap(ra.actors, rb.actors);
    }
  }

  // ---- register, then unregister ----

  /** Names that unregistering takes away were not there before, and it takes away all the new ones. */
  ghost predicate Undone(actors: Actors, added: Actors, erased: Actors) {
    forall key ::
      if Find(actors, key).Some? then Find(erased, key).None?
      else Find(added, key).Some? ==> Find(erased, key).Some?
  }

  lemma {:induction false} RegisterThenErase(actors: Actors, added: Actors, erased: Actors)
    requires Ascending(actors)
    ensures EraseAll(InsertAll(actors, added), erased) == actors <==> Undone(actors, added, erased)
  {
    var after := InsertAll(actors, added);
    InsertAllLaws(actors, added, "");
    EraseAllLaws(after, erased, "");
    forall key
      ensures Find(EraseAll(after, erased), key)
           == if Find(erased, key).Some? then None
              else if Find(actors, key).Some? then Find(actors, key) else Find(added, key)
    {
      InsertAllLaws(actors, added, key);
      EraseAllLaws(after, erased, key);
    }
    if Undone(actors, added, erased) {
      SameMap(EraseAll(after, erased), actors);
    }
  }

  ghost predicate NoSharedName(a: Actors, b: Actors) {
    forall key :: Find(a, key).None? || Find(b, key).None?
  }

  /** For a module with a new name, unregistering restores the registry exactly if no actor name was taken before. */
  lemma {:induction false} UnregisterRestores(actors: Actors, siblings: Actors)
    requires Ascending(actors)
    ensures EraseAll(InsertAll(actors, siblings), siblings) == actors <==> NoSharedName(actors, siblings)
  {
    RegisterThenErase(actors, siblings, siblings);
    if Undone(actors, siblings, siblings) {
      forall key ensures Find(actors, key).None? || Find(siblings, key).None? {
        assert if Find(actors, key).Some? then Find(siblings, key).None?
               else Find(siblings, key).Some? ==> Find(siblings, key).Some?;
      }
    }
    if NoSharedName(actors, siblings) {
      forall key
        ensures if Find(actors, key).Some? then Find(siblings, key).None?
                else Find(siblings, key).Some? ==> Find(siblings, key).Some?
      {
        assert Find(actors, key).None? || Find(siblings, key).None?;
      }
    }
  }

  /**
   Whether it succeeds or not, registration adds a prefix of the actors: a failed one is not
   rolled back.
   */
  lemma {:induction false} RegistrationAdds(known: Known, siblings: Actors, r: Registry, entries: Actors) returns (k: nat)
    requires forall i :: 0 <= i < |entries| ==> entries[i].value in known && entries[i].value in r.resolved
    ensures k <= |entries|
    ensures var (r', ok) := RegisterActors(known, siblings, r, entries);
            && r'.actors == InsertAll(r.actors, entries[..k])
            && (if ok then k == |entries| else k < |entries|)
    decreases |entries|
  {
    if entries == [] {
      k := 0;
    } else {
      var (next, ok) := RegisterOne(known, siblings, r, entries[0]);
      if ok {
        k := RegistrationAdds(known, siblings, next, entries[1..]);
        assert entries[..k + 1][1..] == entries[1..][..k];
        k := k + 1;
      } else {
        k := 0;
      }
    }
  }

  // ---- the objects ----

  predicate Current(known: Known, ds: set<ActorDescriptor>)
    reads ds
  {
    forall d :: d in ds ==> d in known && known[d] == d.Data()
  }

  function ResolvedOf(ds: set<ActorDescriptor>): map<ActorDescriptor, Ops>
    reads ds
  {
    map d | d in ds :: d.resolvedInOperations
  }

  class ActorDescriptorMgr {
    var actors: Actors
    var modules: seq<Entry<ModuleDescriptor>>

    constructor ()
      ensures actors == [] && modules == []
    {
      actors, modules := [], [];
    }

    function GetActorDescriptor(name: string): Option<ActorDescriptor>
      reads this
    {
      Find(actors, name)
    }

    /** `getModuleActorDescriptors`: the actors of a registered module. */
    function ActorsOf(moduleName: string): Actors
      reads this, Objects(modules)
    {
      FoundObject(modules, moduleName);
      var it := Find(modules, moduleName);
      if it.None? then [] else it.value.actors
    }

    /** The actors kept under a module name, if there are any. */
    function Kept(moduleName: string): Option<Actors>
      reads this, Objects(modules)
    {
      if Find(modules, moduleName).None? then None else Some(ActorsOf(moduleName))
    }

    /** `siblings` are the actors of the module, none if the actor is registered alone. */
    method RegisterActorDescriptor(
        name: string, d: ActorDescriptor, siblings: Actors, ghost known: Known)
      returns (ok: bool)
      requires Current(known, {d} + Objects(actors) + Objects(siblings))
      modifies this`actors, d`resolvedInOperations
      ensures (d.resolvedInOperations, ok)
           == Resolve(known, old(actors), siblings, Entry(name, d), old(d.resolvedInOperations))
      ensures actors == if ok then Insert(old(actors), name, d) else old(actors)
    {
      ghost var prior := d.resolvedInOperations;
      d.resolvedInOperations := InsertAll(d.resolvedInOperations, d.inOperations);
      for i := 0 to |d.consumes|
        invariant actors == old(actors)
        invariant Current(known, {d} + Objects(actors) + Objects(siblings))
        invariant Resolve(known, actors, siblings, Entry(name, d), prior)
               == Consume(known, actors, siblings, name, d, d.consumes[i..], d.resolvedInOperations)
      {
        var n := d.consumes[i].key;
        var actor: Option<ActorDescriptor>;
        if n == name {
          actor := Some(d);
        } else {
          actor := GetActorDescriptor(n);
          FoundObject(actors, n);
          if actor.None? {
            actor := Find(siblings, n);
            FoundObject(siblings, n);
          }
          if actor.None? {
            return false;
          }
        }
        d.resolvedInOperations := InsertAll(d.resolvedInOperations, actor.value.outOperations);
      }
      actors := Insert(actors, name, d);
      return true;
    }

    /** The same call, seen with all the descriptor objects of a module. */
    method RegisterSibling(
        it: Entry<ActorDescriptor>, siblings: Actors, ghost ds: set<ActorDescriptor>, ghost known: Known)
      returns (ok: bool)
      requires it.value in ds && Objects(siblings) <= ds && Current(known, Objects(actors) + ds)
      modifies this`actors, it.value`resolvedInOperations
      ensures Current(known, Objects(actors) + ds)
      ensures (Registry(actors, ResolvedOf(ds)), ok)
           == RegisterOne(known, siblings, old(Registry(actors, ResolvedOf(ds))), it)
    {
      ObjectsOfInsert(actors, it.key, it.value);
      ghost var resolved := ResolvedOf(ds);
      ok := RegisterActorDescriptor(it.key, it.value, siblings, known);
      assert ResolvedOf(ds) == resolved[it.value := it.value.resolvedInOperations];
    }

    /** The loop of `registerModuleDescriptor`. */
    method RegisterSiblings(siblings: Actors, ghost ds: set<ActorDescriptor>, ghost known: Known) returns (ok: bool)
      requires ds == Objects(siblings) && Current(known, Objects(actors) + ds)
      modifies this`actors, ds`resolvedInOperations
      ensures ds <= known.Keys
      ensures (Registry(actors, ResolvedOf(ds)), ok)
           == RegisterActors(known, siblings, old(Registry(actors, ResolvedOf(ds))), siblings)
    {
      ghost var before := Registry(actors, ResolvedOf(ds));
      for i := 0 to |siblings|
        invariant Current(known, Objects(actors) + ds)
        invariant RegisterActors(known, siblings, before, siblings)
               == RegisterActors(known, siblings, Registry(actors, ResolvedOf(ds)), siblings[i..])
      {
        RegisterNext(known, siblings, Registry(actors, ResolvedOf(ds)), siblings, i);
        ok := RegisterSibling(siblings[i], siblings, ds, known);
        if !ok {
          return;
        }
      }
      ok := true;
    }

    method RegisterModuleDescriptor(moduleName: string, mod: ModuleDescriptor, ghost known: Known)
      returns (ok: bool)
      requires Current(known, Objects(actors) + Objects(mod.actors))
      modifies this`actors, this`modules, Objects(mod.actors)`resolvedInOperations
      ensures (Registry(actors, ResolvedOf(Objects(mod.actors))), ok)
           == RegisterActors(known, mod.actors,
                             old(Registry(actors, ResolvedOf(Objects(mod.actors)))), mod.actors)
      ensures modules == if ok then Insert(old(modules), moduleName, mod) else old(modules)
    {
      ok := RegisterSiblings(mod.actors, Objects(mod.actors), known);
      if ok {
        modules := Insert(modules, moduleName, mod);
      }
    }

    method UnRegisterModuleDescriptor(moduleName: string)
      modifies this`actors, this`modules
      ensures actors == EraseAll(old(actors), old(ActorsOf(moduleName)))
      ensures modules == Erase(old(modules), moduleName)
    {
      var itr := Find(modules, moduleName);
      if itr.None? {
        EraseAbsent(modules, moduleName);
        return;
      }
      var erased := itr.value.actors;
      for i := 0 to |erased|
        invariant EraseAll(old(actors), erased) == EraseAll(actors, erased[i..])
        invariant modules == old(modules)
      {
        actors := Erase(actors, erased[i].key);
      }
      modules := Erase(modules, moduleName);
    }
  }

  lemma {:induction false} FoundObject<V>(m: seq<Entry<V>>, key: string)
    ensures Find(m, key).Some? ==> Find(m, key).value in Objects(m)
  {
    if m != [] && m[0].key != key {
      FoundObject(m[1..], key);
      assert forall i :: 0 <= i < |m[1..]| ==> m[1..][i] == m[i + 1];
    }
  }

  lemma {:induction false} EraseAbsent<V>(m: seq<Entry<V>>, key: string)
    requires Find(m, key).None?
    ensures Erase(m, key) == m
  {
    if m != [] {
      EraseAbsent(m[1..], key);
    }
  }

  // ---- the life of a module ----

  /** The actors that stopping a module by its name erases. */
  function ErasedByName(ok: bool, siblings: Actors, taken: Option<Actors>): Actors {
    if taken.Some? then taken.value else if ok then siblings else []
  }

  lemma {:induction false} ModulesAfter(modules: seq<Entry<ModuleDescriptor>>, moduleName: string, mod: ModuleDescriptor)
    requires Ascending(modules)
    ensures var after := Insert(modules, moduleName, mod);
            if Find(modules, moduleName).None?
            then Find(after, moduleName) == Some(mod) && Erase(after, moduleName) == modules
            else after == modules
  {
    InsertLaws(modules, moduleName, mod, moduleName);
    if Find(modules, moduleName).None? {
      EraseInserted(modules, moduleName, mod);
    } else {
      InsertPresent(modules, moduleName, mod);
    }
  }

  /**
   A module that registers itself when it starts and unregisters itself by name when it stops:
   `added`, the first k actors, come in, all of them if the registration succeeds; then the
   actors kept under the module's name go.
   */
  method StartAndStop(mgr: ActorDescriptorMgr, moduleName: string, mod: ModuleDescriptor, ghost known: Known)
    returns (ok: bool, ghost k: nat)
    requires Ascending(mgr.actors) && Ascending(mgr.modules)
    requires Current(known, Objects(mgr.actors) + Objects(mod.actors))
    modifies mgr, Objects(mod.actors)`resolvedInOperations
    ensures k <= |mod.actors| && (if ok then k == |mod.actors| else k < |mod.actors|)
    ensures mgr.actors == EraseAll(InsertAll(old(mgr.actors), mod.actors[..k]),
                                   ErasedByName(ok, mod.actors, old(mgr.Kept(moduleName))))
    ensures mgr.modules == Erase(old(mgr.modules), moduleName)
  {
    ghost var modules, taken := mgr.modules, mgr.Kept(moduleName);
    k := RegistrationOf(mgr, mod, known);
    ModulesAfter(modules, moduleName, mod);
    ok := mgr.RegisterModuleDescriptor(moduleName, mod, known);
    if taken.Some? {
      FoundObject(modules, moduleName);
      var i :| 0 <= i < |modules| && modules[i].value == Find(modules, moduleName).value;
      assert modules[i].value.actors == old(modules[i].value.actors) == taken.value;
      assert mgr.modules == modules;
    } else if !ok {
      assert mgr.ActorsOf(moduleName) == [];
    }
    mgr.UnRegisterModuleDescriptor(moduleName);
    if taken.None? {
      EraseAbsent(modules, moduleName);
    }
  }

  /**
   What starting and stopping a module leaves of the registry. If its name was new, the registry
   is restored exactly if none of its actor names was taken. A registration that failed is never
   taken back by the module's name: what it added stays. If the name was taken, the actors of
   the module that had it go, whatever the new one added.
   */
  lemma {:induction false} StoppedModule(actors: Actors, siblings: Actors, k: nat, ok: bool, taken: Option<Actors>)
    requires Ascending(actors) && k <= |siblings| && (ok ==> k == |siblings|)
    ensures var added := InsertAll(actors, siblings[..k]);
            var after := EraseAll(added, ErasedByName(ok, siblings, taken));
            && (taken.None? && ok ==> (after == actors <==> NoSharedName(actors, siblings)))
            && (taken.None? && !ok ==> after == added)
            && (taken.Some? ==> (after == actors <==> Undone(actors, siblings[..k], taken.value)))
  {
    assert siblings[..|siblings|] == siblings;
    UnregisterRestores(actors, siblings);
    if taken.Some? {
      RegisterThenErase(actors, siblings[..k], taken.value);
    }
  }

  /** How many actors registering the module would add now. */
  lemma {:induction false} RegistrationOf(mgr: ActorDescriptorMgr, mod: ModuleDescriptor, known: Known) returns (k: nat)
    requires Current(known, Objects(mgr.actors) + Objects(mod.actors))
    ensures k <= |mod.actors|
    ensures forall i :: 0 <= i < |mod.actors| ==>
              mod.actors[i].value in known && mod.actors[i].value in ResolvedOf(Objects(mod.actors))
    ensures var (r, ok) := RegisterActors(
              known, mod.actors, Registry(mgr.actors, ResolvedOf(Objects(mod.actors))), mod.actors);
            && r.actors == InsertAll(mgr.actors, mod.actors[..k])
            && (if ok then k == |mod.actors| else k < |mod.actors|)
  {
    var r := Registry(mgr.actors, ResolvedOf(Objects(mod.actors)));
    assert forall i :: 0 <= i < |mod.actors| ==> mod.actors[i].value in Objects(mod.actors);
    k := RegistrationAdds(known, mod.actors, r, mod.actors);
  }

  /**
   `getResolvedInOperation` after a registration: the first operation of that name in the
   earlier resolution, the in-operations, and the consumed out-operations in name order.
   */
  lemma {:induction false} ResolvedLookup(d: ActorDescriptor, known: Known, actors: Actors, siblings: Actors, name: string, prior: Ops, key: string)
    requires d in known && known[d] == d.Data() && Ascending(prior)
    requires (d.resolvedInOperations, true) == Resolve(known, actors, siblings, Entry(name, d), prior)
    ensures d.GetResolvedInOperation(key) == FirstFound(
              [prior] + ([d.inOperations] + ConsumedOuts(known, actors, siblings, name, d, d.consumes)), key)
  {
    var outs := ConsumedOuts(known, actors, siblings, name, d, d.consumes);
    ResolvedOperations(known, actors, siblings, Entry(name, d), prior, key);
    FirstFoundCons(prior, [d.inOperations] + outs, key);
    FirstFoundCons(d.inOperations, outs, key);
  }
}
