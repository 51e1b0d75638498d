/**
 Actor and module descriptors: the wrapper objects, the protobuf messages they are made from,
 and the conversions both ways.
 */
module Descriptor {
  import opened Options
  import opened OrderedMap

  datatype Op = Op(name: string, description: string, payloadType: string)
  datatype ActorType = Stateless | Stateful

  type Ops = seq<Entry<Op>>
  type Names = seq<Entry<()>>

  /** The protobuf messages. */
  datatype ProtoActor = ProtoActor(
    name: string, description: string, kind: ActorType,
    inOperations: seq<Op>, outOperations: seq<Op>, consumeActorName: seq<string>)
  datatype ProtoModule = ProtoModule(name: string, description: string, actors: seq<ProtoActor>)

  /** What a wrapper holds, apart from the resolved operations. */
  datatype Actor = Actor(
    name: string, description: string, kind: ActorType, ins: Ops, outs: Ops, consumes: Names)
  datatype Module = Module(name: string, description: string, actors: seq<Entry<Actor>>)

  // ---- the conversions on values ----

  /** Each operation with its own name as key. */
  function ByName(ops: seq<Op>): (es: Ops)
    ensures |es| == |ops|
    ensures forall i :: 0 <= i < |ops| ==> es[i] == Entry(ops[i].name, ops[i])
  {
    seq(|ops|, i requires 0 <= i < |ops| => Entry(ops[i].name, ops[i]))
  }

  function AsNames(names: seq<string>): (es: Names)
    ensures |es| == |names|
    ensures forall i :: 0 <= i < |names| ==> es[i] == Entry(names[i], ())
  {
    seq(|names|, i requires 0 <= i < |names| => Entry(names[i], ()))
  }

  function Values<V>(m: seq<Entry<V>>): (vs: seq<V>)
    ensures |vs| == |m|
    ensures forall i :: 0 <= i < |m| ==> vs[i] == m[i].value
  {
    seq(|m|, i requires 0 <= i < |m| => m[i].value)
  }

  function Keys<V>(m: seq<Entry<V>>): (ks: seq<string>)
    ensures |ks| == |m|
    ensures forall i :: 0 <= i < |m| ==> ks[i] == m[i].key
  {
    seq(|m|, i requires 0 <= i < |m| => m[i].key)
  }

  function FromProto(p: ProtoActor): Actor {
    Actor(p.name, p.description, p.kind,
          InsertAll([], ByName(p.inOperations)), InsertAll([], ByName(p.outOperations)),
          InsertAll([], AsNames(p.consumeActorName)))
  }

  function ToProto(a: Actor): ProtoActor {
    ProtoActor(a.name, a.description, a.kind, Values(a.ins), Values(a.outs), Keys(a.consumes))
  }

  function NamedActors(ps: seq<ProtoActor>): (es: seq<Entry<Actor>>)
    ensures |es| == |ps|
    ensures forall i :: 0 <= i < |ps| ==> es[i] == Entry(ps[i].name, FromProto(ps[i]))
  {
    seq(|ps|, i requires 0 <= i < |ps| => Entry(ps[i].name, FromProto(ps[i])))
  }

  function ProtoActors(m: seq<Entry<Actor>>): (ps: seq<ProtoActor>)
    ensures |ps| == |m|
    ensures forall i :: 0 <= i < |m| ==> ps[i] == ToProto(m[i].value)
  {
    seq(|m|, i requires 0 <= i < |m| => ToProto(m[i].value))
  }

  function FromProtoModule(p: ProtoModule): Module {
    Module(p.name, p.description, InsertAll([], NamedActors(p.actors)))
  }

  /** The name and the description are written once for each actor, so not at all without actors. */
  function ToProtoModule(m: Module): ProtoModule {
    if m.actors == [] then ProtoModule("", "", [])
    else ProtoModule(m.name, m.description, ProtoActors(m.actors))
  }

  predicate ValidActor(a: Actor) {
    Ascending(a.ins) && Ascending(a.outs) && Ascending(a.consumes)
  }

  predicate ValidModule(m: Module) {
    Ascending(m.actors) && forall i :: 0 <= i < |m.actors| ==> ValidActor(m.actors[i].value)
  }

  predicate OwnNames(ops: Ops) {
    forall i :: 0 <= i < |ops| ==> ops[i].key == ops[i].value.name
  }

  /** Every operation is kept under its own name. */
  predicate WellNamed(a: Actor) {
    OwnNames(a.ins) && OwnNames(a.outs)
  }

  predicate WellNamedModule(m: Module) {
    forall i :: 0 <= i < |m.actors| ==>
                  WellNamed(m.actors[i].value) && m.actors[i].key == m.actors[i].value.name
  }

  // ---- round trips ----

  lemma {:induction false} InsertKeeps<V>(m: seq<Entry<V>>, key: string, value: V, e: Entry<V>)
    requires e in Insert(m, key, value)
    ensures e in m || e == Entry(key, value)
  {
    if m != [] && m[0].key != key && !Less(key, m[0].key) && e != m[0] {
      InsertKeeps(m[1..], key, value, e);
    }
  }

  /** Every entry of a filled map comes from the range. */
  lemma {:induction false} InsertAllKeeps<V>(m: seq<Entry<V>>, more: seq<Entry<V>>, e: Entry<V>)
    requires e in InsertAll(m, more)
    ensures e in m || e in more
    decreases |more|
  {
    if more != [] {
      InsertAllKeeps(Insert(m, more[0].key, more[0].value), more[1..], e);
      if e !in more[1..] {
        InsertKeeps(m, more[0].key, more[0].value, e);
      }
    }
  }

  lemma {:induction false} InsertAllAscending<V>(more: seq<Entry<V>>)
    ensures Ascending(InsertAll([], more))
  {
    InsertAllLaws([], more, "");
  }

  lemma {:induction false} OwnNamesOfList(ops: seq<Op>)
    ensures OwnNames(InsertAll([], ByName(ops)))
  {
    var m := InsertAll([], ByName(ops));
    forall i | 0 <= i < |m| ensures m[i].key == m[i].value.name {
      InsertAllKeeps([], ByName(ops), m[i]);
    }
  }

  lemma {:induction false} OpsRoundTrip(ops: Ops)
    requires Ascending(ops)
    ensures InsertAll([], ByName(Values(ops))) == ops <==> OwnNames(ops)
  {
    OwnNamesOfList(Values(ops));
    if OwnNames(ops) {
      assert ByName(Values(ops)) == ops;
      InsertAllOfMap(ops);
    }
  }

  lemma {:induction false} NamesRoundTrip(names: Names)
    requires Ascending(names)
    ensures InsertAll([], AsNames(Keys(names))) == names
  {
    forall i | 0 <= i < |names| ensures AsNames(Keys(names))[i] == names[i] {
      assert names[i].value == ();
    }
    assert AsNames(Keys(names)) == names;
    InsertAllOfMap(names);
  }

  /** A wrapper comes back from its protobuf message exactly if its operations are kept under their own names. */
  lemma {:induction false} ActorRoundTrip(a: Actor)
    requires ValidActor(a)
    ensures FromProto(ToProto(a)) == a <==> WellNamed(a)
  {
    OpsRoundTrip(a.ins);
    OpsRoundTrip(a.outs);
    NamesRoundTrip(a.consumes);
  }

  lemma {:induction false} FromProtoIsWellNamed(p: ProtoActor)
    ensures ValidActor(FromProto(p)) && WellNamed(FromProto(p))
  {
    InsertAllAscending(ByName(p.inOperations));
    InsertAllAscending(ByName(p.outOperations));
    InsertAllAscending(AsNames(p.consumeActorName));
    OwnNamesOfList(p.inOperations);
    OwnNamesOfList(p.outOperations);
  }

  /** A protobuf message that went through a wrapper does not change when it goes through one again. */
  lemma {:induction false} ActorNormalises(p: ProtoActor)
    ensures FromProto(ToProto(FromProto(p))) == FromProto(p)
  {
    FromProtoIsWellNamed(p);
    ActorRoundTrip(FromProto(p));
  }

  /** In a message with two operations of one name, the first wins. */
  lemma {:induction false} FirstOperationWins(p: ProtoActor, i: nat)
    requires i < |p.inOperations|
    requires forall j :: 0 <= j < i ==> p.inOperations[j].name != p.inOperations[i].name
    ensures Find(FromProto(p).ins, p.inOperations[i].name) == Some(p.inOperations[i])
  {
    var es := ByName(p.inOperations);
    InsertAllLaws([], es, es[i].key);
    FindFirst(es, i);
  }

  lemma {:induction false} FindFirst<V>(m: seq<Entry<V>>, i: nat)
    requires i < |m|
    requires forall j :: 0 <= j < i ==> m[j].key != m[i].key
    ensures Find(m, m[i].key) == Some(m[i].value)
  {
    if i > 0 {
      FindFirst(m[1..], i - 1);
    }
  }

  /** The first operation of its name in the list. */
  predicate IsFirst(ops: seq<Op>, op: Op) {
    exists i :: 0 <= i < |ops| && ops[i] == op && forall j :: 0 <= j < i ==> ops[j].name != op.name
  }

  lemma {:induction false} MapOfList(ops: seq<Op>, op: Op)
    ensures Entry(op.name, op) in InsertAll([], ByName(ops)) <==> IsFirst(ops, op)
  {
    var es := ByName(ops);
    InsertAllLaws([], es, op.name);
    FindsEntry(InsertAll([], es), op.name, op);
    if IsFirst(ops, op) {
      var i :| 0 <= i < |ops| && ops[i] == op && forall j :: 0 <= j < i ==> ops[j].name != op.name;
      FindFirst(es, i);
    }
    if Find(es, op.name) == Some(op) {
      var i := FoundAt(es, op.name);
      assert es[i] == Entry(ops[i].name, ops[i]);
      assert forall j :: 0 <= j < i ==> es[j].key == ops[j].name;
    }
  }

  lemma {:induction false} FoundAt<V>(m: seq<Entry<V>>, key: string) returns (i: nat)
    requires Find(m, key).Some?
    ensures i < |m| && m[i].key == key && Some(m[i].value) == Find(m, key)
    ensures forall j :: 0 <= j < i ==> m[j].key != key
  {
    i := 0;
    if m[0].key != key {
      i := FoundAt(m[1..], key);
      i := i + 1;
    }
  }

  lemma {:induction false} SetOfNames(names: seq<string>, n: string)
    ensures Entry(n, ()) in InsertAll([], AsNames(names)) <==> n in names
  {
    var es := AsNames(names);
    InsertAllLaws([], es, n);
    FindsEntry(InsertAll([], es), n, ());
    if n in names {
      var i :| 0 <= i < |names| && names[i] == n;
      assert es[i].key == n;
      SomeEntry(es, i);
      assert Find(es, n).value == ();
    }
    if Find(es, n).Some? {
      var i := FoundAt(es, n);
      assert es[i].key == names[i];
    }
  }

  lemma {:induction false} SomeEntry<V>(m: seq<Entry<V>>, i: nat)
    requires i < |m|
    ensures Find(m, m[i].key).Some?
  {
    if i > 0 {
      SomeEntry(m[1..], i - 1);
    }
  }

  /**
   What a wrapper made from a protobuf message holds: its name, description and type, of the
   in-operations and of the out-operations the first of each name, and the consumed names.
   */
  lemma {:induction false} WrapperHolds(p: ProtoActor, op: Op, n: string)
    ensures var a := FromProto(p);
            && a.name == p.name && a.description == p.description && a.kind == p.kind
            && ValidActor(a) && WellNamed(a)
            && (Entry(op.name, op) in a.ins <==> IsFirst(p.inOperations, op))
            && (Entry(op.name, op) in a.outs <==> IsFirst(p.outOperations, op))
            && (Entry(n, ()) in a.consumes <==> n in p.consumeActorName)
  {
    FromProtoIsWellNamed(p);
    MapOfList(p.inOperations, op);
    MapOfList(p.outOperations, op);
    SetOfNames(p.consumeActorName, n);
  }

  /** The same of a module: its name and description, and of the actors of one name the first. */
  lemma {:induction false} ModuleHolds(p: ProtoModule, name: string, a: Actor)
    ensures var m := FromProtoModule(p);
            && m.name == p.name && m.description == p.description && Ascending(m.actors)
            && (Entry(name, a) in m.actors
                <==> exists i :: 0 <= i < |p.actors| && p.actors[i].name == name && FromProto(p.actors[i]) == a
                                 && forall j :: 0 <= j < i ==> p.actors[j].name != name)
  {
    var es := NamedActors(p.actors);
    InsertAllLaws([], es, name);
    FindsEntry(InsertAll([], es), name, a);
    if i :| 0 <= i < |p.actors| && p.actors[i].name == name && FromProto(p.actors[i]) == a
            && forall j :: 0 <= j < i ==> p.actors[j].name != name
    {
      FindFirst(es, i);
    }
    if Find(es, name) == Some(a) {
      var i := FoundAt(es, name);
      assert es[i] == Entry(p.actors[i].name, FromProto(p.actors[i]));
      assert forall j :: 0 <= j < i ==> es[j].key == p.actors[j].name;
    }
  }

  /**
   A module comes back exactly if all its actors and operations are kept under their own names
   and, without actors, it has neither name nor description.
   */
  lemma {:induction false} ModuleRoundTrip(m: Module)
    requires ValidModule(m)
    ensures FromProtoModule(ToProtoModule(m)) == m
       <==> WellNamedModule(m) && (m.actors == [] ==> m.name == "" && m.description == "")
  {
    if m.actors != [] {
      var es := NamedActors(ProtoActors(m.actors));
      assert FromProtoModule(ToProtoModule(m)).actors == InsertAll([], es);
      if WellNamedModule(m) {
        forall i | 0 <= i < |m.actors| ensures es[i] == m.actors[i] {
          ActorRoundTrip(m.actors[i].value);
        }
        assert es == m.actors;
        InsertAllOfMap(m.actors);
      }
      if InsertAll([], es) == m.actors {
        forall i | 0 <= i < |m.actors|
          ensures WellNamed(m.actors[i].value) && m.actors[i].key == m.actors[i].value.name
        {
          InsertAllKeeps([], es, m.actors[i]);
          var k :| 0 <= k < |es| && es[k] == m.actors[i];
          FromProtoIsWellNamed(ProtoActors(m.actors)[k]);
        }
      }
    }
  }

  lemma {:induction false} InsertAllNotEmpty<V>(m: seq<Entry<V>>, more: seq<Entry<V>>)
    requires m != [] || more != []
    ensures InsertAll(m, more) != []
    decreases |more|
  {
    if more != [] {
      InsertAllNotEmpty(Insert(m, more[0].key, more[0].value), more[1..]);
    }
  }

  /** A protobuf module with an actor, or without a name and description, normalises like its actors. */
  lemma {:induction false} ModuleNormalises(p: ProtoModule)
    ensures FromProtoModule(ToProtoModule(FromProtoModule(p))) == FromProtoModule(p)
       <==> (p.actors == [] ==> p.name == "" && p.description == "")
  {
    var m := FromProtoModule(p);
    InsertAllAscending(NamedActors(p.actors));
    forall i | 0 <= i < |m.actors|
      ensures ValidActor(m.actors[i].value) && WellNamed(m.actors[i].value)
      ensures m.actors[i].key == m.actors[i].value.name
    {
      InsertAllKeeps([], NamedActors(p.actors), m.actors[i]);
      var k :| 0 <= k < |p.actors| && NamedActors(p.actors)[k] == m.actors[i];
      FromProtoIsWellNamed(p.actors[k]);
    }
    if p.actors != [] {
      InsertAllNotEmpty([], NamedActors(p.actors));
    }
    ModuleRoundTrip(m);
  }

  // ---- the objects ----

  class ActorDescriptor {
    var name: string
    var description: string
    var kind: ActorType
    var inOperations: Ops
    var outOperations: Ops
    var resolvedInOperations: Ops
    var consumes: Names

    function Data(): Actor
      reads this
    {
      Actor(name, description, kind, inOperations, outOperations, consumes)
    }

    /** The constructor from a protobuf message. */
    constructor (p: ProtoActor)
      ensures Data() == FromProto(p)
      ensures resolvedInOperations == []
    {
      name, description, kind := p.name, p.description, p.kind;
      inOperations, outOperations, resolvedInOperations, consumes := [], [], [], [];
      new;
      for i := 0 to |p.inOperations|
        invariant name == p.name && description == p.description && kind == p.kind
        invariant resolvedInOperations == [] && outOperations == [] && consumes == []
        invariant InsertAll(inOperations, ByName(p.inOperations)[i..]) == FromProto(p).ins
      {
        SetInOperation(p.inOperations[i].name, p.inOperations[i]);
      }
      for i := 0 to |p.outOperations|
        invariant name == p.name && description == p.description && kind == p.kind
        invariant resolvedInOperations == [] && inOperations == FromProto(p).ins && consumes == []
        invariant InsertAll(outOperations, ByName(p.outOperations)[i..]) == FromProto(p).outs
      {
        SetOutOperation(p.outOperations[i].name, p.outOperations[i]);
      }
      for i := 0 to |p.consumeActorName|
        invariant name == p.name && description == p.description && kind == p.kind
        invariant resolvedInOperations == []
        invariant inOperations == FromProto(p).ins && outOperations == FromProto(p).outs
        invariant InsertAll(consumes, AsNames(p.consumeActorName)[i..]) == FromProto(p).consumes
      {
        AddConsumeActor(p.consumeActorName[i]);
      }
    }

    method SetInOperation(key: string, op: Op)
      modifies this`inOperations
      ensures inOperations == Insert(old(inOperations), key, op)
    {
      inOperations := Insert(inOperations, key, op);
    }

    method SetOutOperation(key: string, op: Op)
      modifies this`outOperations
      ensures outOperations == Insert(old(outOperations), key, op)
    {
      outOperations := Insert(outOperations, key, op);
    }

    method AddConsumeActor(actorName: string)
      modifies this`consumes
      ensures consumes == Insert(old(consumes), actorName, ())
    {
      consumes := Insert(consumes, actorName, ());
    }

    method ToActorDescriptor() returns (p: ProtoActor)
      ensures p == ToProto(Data())
    {
      var ins, outs, names := [], [], [];
      for i := 0 to |inOperations|
        invariant ins == Values(inOperations[..i])
      {
        ins := ins + [inOperations[i].value];
      }
      for i := 0 to |outOperations|
        invariant outs == Values(outOperations[..i])
      {
        outs := outs + [outOperations[i].value];
      }
      for i := 0 to |consumes|
        invariant names == Keys(consumes[..i])
      {
        names := names + [consumes[i].key];
      }
      assert inOperations[..|inOperations|] == inOperations;
      assert outOperations[..|outOperations|] == outOperations;
      assert consumes[..|consumes|] == consumes;
      p := ProtoActor(name, description, kind, ins, outs, names);
    }

    /** The resolved operation, or else the in-operation of that name. */
    function GetResolvedInOperation(key: string): Option<Op>
      reads this
    {
      var it := Find(resolvedInOperations, key);
      if it.Some? then it else Find(inOperations, key)
    }
  }

  function Objects<V>(m: seq<Entry<V>>): set<V> {
    set i | 0 <= i < |m| :: m[i].value
  }

  /** The values of the objects in a map. */
  function DataOf(actors: seq<Entry<ActorDescriptor>>): (es: seq<Entry<Actor>>)
    reads Objects(actors)
    ensures |es| == |actors|
    ensures forall i :: 0 <= i < |actors| ==> es[i] == Entry(actors[i].key, actors[i].value.Data())
  {
    seq(|actors|, i requires 0 <= i < |actors| reads Objects(actors) =>
      Entry(actors[i].key, actors[i].value.Data()))
  }

  lemma {:induction false} DataOfInsert(actors: seq<Entry<ActorDescriptor>>, key: string, d: ActorDescriptor)
    ensures DataOf(Insert(actors, key, d)) == Insert(DataOf(actors), key, d.Data())
  {
    if actors != [] && actors[0].key != key && !Less(key, actors[0].key) {
      DataOfInsert(actors[1..], key, d);
      DataOfCons(actors[0], actors[1..]);
      DataOfCons(actors[0], Insert(actors[1..], key, d));
      assert [actors[0]] + actors[1..] == actors;
      assert DataOf(actors)[1..] == DataOf(actors[1..]);
    } else if actors == [] || actors[0].key != key {
      DataOfCons(Entry(key, d), actors);
    }
  }

  lemma {:induction false} DataOfCons(e: Entry<ActorDescriptor>, actors: seq<Entry<ActorDescriptor>>)
    ensures DataOf([e] + actors) == [Entry(e.key, e.value.Data())] + DataOf(actors)
  {
    var m := [e] + actors;
    forall i | 0 <= i < |m| ensures DataOf(m)[i] == ([Entry(e.key, e.value.Data())] + DataOf(actors))[i] {
      if i > 0 {
        assert m[i] == actors[i - 1];
      }
    }
  }

  lemma {:induction false} ObjectsOfInsert(actors: seq<Entry<ActorDescriptor>>, key: string, d: ActorDescriptor)
    ensures Objects(Insert(actors, key, d)) <= Objects(actors) + {d}
  {
    forall x | x in Objects(Insert(actors, key, d)) ensures x in Objects(actors) + {d} {
      var i :| 0 <= i < |Insert(actors, key, d)| && Insert(actors, key, d)[i].value == x;
      InsertKeeps(actors, key, d, Insert(actors, key, d)[i]);
    }
  }

  class ModuleDescriptor {
    var name: string
    var description: string
    var actors: seq<Entry<ActorDescriptor>>

    function Data(): Module
      reads this, Objects(actors)
    {
      Module(name, description, DataOf(actors))
    }

    /** The constructor from a protobuf message. */
    constructor (p: ProtoModule)
      ensures Data() == FromProtoModule(p)
      ensures fresh(Objects(actors))
    {
      name, description := p.name, p.description;
      actors := [];
      new;
      for i := 0 to |p.actors|
        invariant name == p.name && description == p.description
        invariant fresh(Objects(actors))
        invariant InsertAll(DataOf(actors), NamedActors(p.actors)[i..]) == FromProtoModule(p).actors
      {
        AddProto(p.actors[i]);
        assert NamedActors(p.actors)[i..][1..] == NamedActors(p.actors)[i + 1..];
      }
    }

    method AddProto(p: ProtoActor)
      modifies this`actors
      ensures DataOf(actors) == Insert(old(DataOf(actors)), p.name, FromProto(p))
      ensures fresh(Objects(actors) - old(Objects(actors)))
    {
      var d := new ActorDescriptor(p);
      assert DataOf(actors) == old(DataOf(actors));
      DataOfInsert(actors, d.name, d);
      ObjectsOfInsert(actors, d.name, d);
      AddActorDescriptor(d);
    }

    method AddActorDescriptor(d: ActorDescriptor)
      modifies this`actors
      ensures actors == Insert(old(actors), d.name, d)
    {
      actors := Insert(actors, d.name, d);
    }

    method ToModuleDescriptor() returns (p: ProtoModule)
      ensures p == ToProtoModule(Data())
    {
      p := ProtoModule("", "", []);
      for i := 0 to |actors|
        invariant p.name == (if i == 0 then "" else name)
        invariant p.description == (if i == 0 then "" else description)
        invariant p.actors == ProtoActors(DataOf(actors)[..i])
      {
        var a := actors[i].value.ToActorDescriptor();
        p := ProtoModule(name, description, p.actors + [a]);
      }
      assert DataOf(actors)[..|actors|] == DataOf(actors);
    }
  }
}
