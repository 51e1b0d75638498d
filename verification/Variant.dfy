/**
 PbVariant and the strings it owns: construction, copy, move, assignment and destruction over
 an explicit memory of strings. A step that reads or deletes a string that is not there has no
 result.
 */
module Variant {
  import opened Options

  datatype Kind = Int32 | Int64 | UInt32 | UInt64 | Double | Float | Bool | Text

  /** The type tag and the union; for Text the word is the address of the string, 0 for NULL. */
  datatype Tagged = Tagged(kind: Kind, word: nat, isNull: bool)

  /** The strings that have been allocated and not deleted; an address is never used twice. */
  datatype Memory = Memory(live: map<nat, string>, next: nat)

  // ---- the operations on values ----

  predicate HasText(v: Tagged) {
    v.kind == Text && v.word != 0
  }

  /** `new std::string(s)` */
  function Allocate(m: Memory, s: string): (r: (nat, Memory)) {
    (m.next, Memory(m.live[m.next := s], m.next + 1))
  }

  /** A copy of the string the variant points at; NULL and dangling pointers cannot be read. */
  function Duplicate(m: Memory, v: Tagged): Option<(nat, Memory)> {
    if v.word != 0 && v.word in m.live then Some(Allocate(m, m.live[v.word])) else None
  }

  /** `freeString` */
  function AfterFree(m: Memory, v: Tagged): Option<Memory> {
    if !HasText(v) then Some(m)
    else if v.word in m.live then Some(m.(live := m.live - {v.word}))
    else None
  }

  function CopyConstruct(m: Memory, v: Tagged): Option<(Tagged, Memory)> {
    if v.kind == Text then
      var (p, m') :- Duplicate(m, v);
      Some((Tagged(Text, p, false), m'))
    else Some((Tagged(v.kind, v.word, false), m))
  }

  /** The variant after `operator = (const std::string&)`. */
  function AfterAssign(m: Memory, v: Tagged, s: string): Option<(Tagged, Memory)> {
    if v.kind == Text then
      if v.word != 0 && v.word in m.live then Some((v, m.(live := m.live[v.word := s]))) else None
    else
      var (p, m') := Allocate(m, s);
      Some((v.(kind := Text, word := p), m'))
  }

  /** The variant after copy assignment from another one. */
  function CopyAssign(m: Memory, v: Tagged, from: Tagged): Option<(Tagged, Memory)> {
    var freed :- AfterFree(m, v);
    if from.kind == Text then
      var (p, m') :- Duplicate(freed, from);
      Some((Tagged(Text, p, from.isNull), m'))
    else Some((from, freed))
  }

  /** What a move leaves behind. */
  function MovedFrom(v: Tagged): Tagged {
    if v.kind == Text then v.(word := 0) else v
  }

  // ---- runs ----

  /** Named variants, the memory, and the strings a raw pointer assignment has overwritten. */
  datatype World = World(vars: map<nat, Tagged>, memory: Memory, leaked: set<nat>)

  datatype Operation =
    | NewDefault(x: nat, word: nat)          // the union is not initialised
    | NewScalar(x: nat, kind: Kind, word: nat)
    | NewString(x: nat, s: string)
    | NewRaw(x: nat, raw: Option<string>)    // a pointer to a fresh string, or NULL
    | NewCopy(x: nat, from: nat)
    | NewMove(x: nat, from: nat)
    | SetScalar(x: nat, kind: Kind, word: nat)
    | SetString(x: nat, s: string)
    | SetRaw(x: nat, raw: Option<string>)
    | SetCopy(x: nat, from: nat)
    | SetMove(x: nat, from: nat)
    | Destroy(x: nat)

  predicate Constructs(op: Operation) {
    op.NewDefault? || op.NewScalar? || op.NewString? || op.NewRaw? || op.NewCopy? || op.NewMove?
  }

  predicate HasSource(op: Operation) {
    op.NewCopy? || op.NewMove? || op.SetCopy? || op.SetMove?
  }

  /** The variants named are there, except the one to construct, and scalars are not strings. */
  predicate Possible(w: World, op: Operation) {
    && (if Constructs(op) then op.x !in w.vars else op.x in w.vars)
    && (HasSource(op) ==> op.from in w.vars)
    && (op.NewScalar? || op.SetScalar? ==> op.kind != Text)
  }

  function RawPointer(m: Memory, raw: Option<string>): (nat, Memory) {
    if raw.None? then (0, m) else Allocate(m, raw.value)
  }

  /** The world after an operation, None if it touches a string that is not there. */
  function Step(w: World, op: Operation): Option<World>
    requires Possible(w, op)
  {
    match op
    case NewDefault(x, word) => Some(w.(vars := w.vars[x := Tagged(Int32, word, true)]))
    case NewScalar(x, kind, word) => Some(w.(vars := w.vars[x := Tagged(kind, word, false)]))
    case NewString(x, s) =>
      var (p, m) := Allocate(w.memory, s);
      Some(w.(vars := w.vars[x := Tagged(Text, p, false)], memory := m))
    case NewRaw(x, raw) =>
      var (p, m) := RawPointer(w.memory, raw);
      Some(w.(vars := w.vars[x := Tagged(Text, p, false)], memory := m))
    case NewCopy(x, from) =>
      var (v, m) :- CopyConstruct(w.memory, w.vars[from]);
      Some(w.(vars := w.vars[x := v], memory := m))
    case NewMove(x, from) =>
      Some(w.(vars := w.vars[x := w.vars[from].(isNull := false)][from := MovedFrom(w.vars[from])]))
    case SetScalar(x, kind, word) =>
      var m :- AfterFree(w.memory, w.vars[x]);
      Some(w.(vars := w.vars[x := Tagged(kind, word, false)], memory := m))
    case SetString(x, s) =>
      var (v, m) :- AfterAssign(w.memory, w.vars[x], s);
      Some(w.(vars := w.vars[x := v], memory := m))
    case SetRaw(x, raw) =>
      var (p, m) := RawPointer(w.memory, raw);
      Some(World(w.vars[x := w.vars[x].(kind := Text, word := p)], m,
                 if HasText(w.vars[x]) then w.leaked + {w.vars[x].word} else w.leaked))
    case SetCopy(x, from) =>
      if x == from then Some(w)
      else
        var (v, m) :- CopyAssign(w.memory, w.vars[x], w.vars[from]);
        Some(w.(vars := w.vars[x := v], memory := m))
    case SetMove(x, from) =>
      if x == from then Some(w)
      else
        var m :- AfterFree(w.memory, w.vars[x]);
        Some(w.(vars := w.vars[x := w.vars[from]][from := MovedFrom(w.vars[from])], memory := m))
    case Destroy(x) =>
      var m :- AfterFree(w.memory, w.vars[x]);
      Some(w.(vars := w.vars - {x}, memory := m))
  }

  // ---- ownership ----

  /** The variant is the one that deletes the string. */
  predicate Owns(w: World, x: nat, p: nat) {
    x in w.vars && HasText(w.vars[x]) && w.vars[x].word == p
  }

  /** No string has two owners, and none is owned after a raw pointer assignment dropped it. */
  ghost predicate OneOwner(w: World) {
    && (forall x, y ::
          (&& x in w.vars && y in w.vars && HasText(w.vars[x]) && HasText(w.vars[y])
           && w.vars[x].word == w.vars[y].word) ==> x == y)
    && (forall x :: x in w.vars && HasText(w.vars[x]) ==> w.vars[x].word !in w.leaked)
  }

  /** Every owned string is live. */
  predicate OwnedAreLive(w: World) {
    forall x :: x in w.vars && HasText(w.vars[x]) ==> w.vars[x].word in w.memory.live
  }

  /** Every live string has an owner or was dropped. */
  ghost predicate LiveAreOwned(w: World) {
    forall p :: p in w.memory.live ==> p in w.leaked || exists x :: Owns(w, x, p)
  }

  predicate Addresses(w: World) {
    && w.memory.next > 0
    && (forall p :: p in w.memory.live ==> 0 < p < w.memory.next)
    && (forall p :: p in w.leaked ==> p in w.memory.live)
  }

  ghost predicate Sound(w: World) {
    OneOwner(w) && OwnedAreLive(w) && LiveAreOwned(w) && Addresses(w)
  }

  /** The operation reads the string of a variant that has none. */
  predicate ReadsNull(w: World, op: Operation)
    requires Possible(w, op)
  {
    match op
    case NewCopy(_, from) => w.vars[from].kind == Text && w.vars[from].word == 0
    case SetCopy(x, from) => x != from && w.vars[from].kind == Text && w.vars[from].word == 0
    case SetString(x, _) => w.vars[x].kind == Text && w.vars[x].word == 0
    case _ => false
  }

  /**
   With sound ownership an operation goes wrong exactly if it copies from or assigns a string to
   a variant whose string is gone: nothing is deleted twice.
   */
  lemma {:induction false} FaultIffNull(w: World, op: Operation)
    requires Possible(w, op) && OneOwner(w) && OwnedAreLive(w)
    ensures Step(w, op).None? <==> ReadsNull(w, op)
  {
    if op.SetCopy? && op.x != op.from && HasText(w.vars[op.x]) && HasText(w.vars[op.from]) {
      assert w.vars[op.x].word != w.vars[op.from].word;
    }
  }

  lemma {:induction false} ConstructionKeepsOneOwner(w: World, op: Operation)
    requires Possible(w, op) && Sound(w) && Constructs(op) && !op.NewMove? && Step(w, op).Some?
    ensures OneOwner(Step(w, op).value)
  {
  }

  lemma {:induction false} MovesKeepOneOwner(w: World, op: Operation)
    requires Possible(w, op) && Sound(w) && (op.NewMove? || op.SetMove?) && Step(w, op).Some?
    ensures OneOwner(Step(w, op).value)
  {
  }

  lemma {:induction false} AssignmentKeepsOneOwner(w: World, op: Operation)
    requires Possible(w, op) && Sound(w) && (op.SetString? || op.SetRaw? || op.SetCopy?) && Step(w, op).Some?
    ensures OneOwner(Step(w, op).value)
  {
  }

  lemma {:induction false} FreeingKeepsOneOwner(w: World, op: Operation)
    requires Possible(w, op) && Sound(w) && (op.SetScalar? || op.Destroy?) && Step(w, op).Some?
    ensures OneOwner(Step(w, op).value)
  {
  }

  lemma {:induction false} StepKeepsOneOwner(w: World, op: Operation)
    requires Possible(w, op) && Sound(w) && Step(w, op).Some?
    ensures OneOwner(Step(w, op).value)
  {
    if op.NewMove? || op.SetMove? {
      MovesKeepOneOwner(w, op);
    } else if Constructs(op) {
      ConstructionKeepsOneOwner(w, op);
    } else if op.SetScalar? || op.Destroy? {
      FreeingKeepsOneOwner(w, op);
    } else {
      AssignmentKeepsOneOwner(w, op);
    }
  }

  lemma {:induction false} StepKeepsOwnedLive(w: World, op: Operation)
    requires Possible(w, op) && Sound(w) && Step(w, op).Some?
    ensures OwnedAreLive(Step(w, op).value)
  {
  }

  lemma {:induction false} StepKeepsAddresses(w: World, op: Operation)
    requires Possible(w, op) && Sound(w) && Step(w, op).Some?
    ensures Addresses(Step(w, op).value)
  {
  }

  /** A string that stays live keeps an owner. */
  lemma {:induction false} StepKeepsLiveOwned(w: World, op: Operation)
    requires Possible(w, op) && Sound(w) && Step(w, op).Some?
    ensures LiveAreOwned(Step(w, op).value)
  {
    var w' := Step(w, op).value;
    forall p | p in w'.memory.live && p !in w'.leaked ensures exists x :: Owns(w', x, p) {
      if p in w.memory.live {
        var x :| Owns(w, x, p);
        if (op.NewMove? || op.SetMove?) && op.from == x {
          assert Owns(w', op.x, p);
        } else {
          assert Owns(w', x, p);
        }
      } else {
        assert Owns(w', op.x, p);
      }
    }
  }

  lemma {:induction false} StepKeepsSound(w: World, op: Operation)
    requires Possible(w, op) && Sound(w) && Step(w, op).Some?
    ensures Sound(Step(w, op).value)
  {
    StepKeepsOneOwner(w, op);
    StepKeepsOwnedLive(w, op);
    StepKeepsAddresses(w, op);
    StepKeepsLiveOwned(w, op);
  }

  /** The world after a run, None if a step is not possible or goes wrong. */
  function Run(w: World, ops: seq<Operation>): Option<World>
    decreases ops
  {
    if ops == [] then Some(w)
    else if !Possible(w, ops[0]) then None
    else
      var next :- Step(w, ops[0]);
      Run(next, ops[1..])
  }

  /** Only variants that are there are used, and no string is read from a variant that has none. */
  predicate Allowed(w: World, ops: seq<Operation>)
    decreases ops
  {
    ops == []
    || (&& Possible(w, ops[0])
        && !ReadsNull(w, ops[0])
        && (Step(w, ops[0]).Some? ==> Allowed(Step(w, ops[0]).value, ops[1..])))
  }

  function Empty(next: nat): World {
    World(map[], Memory(map[], next), {})
  }

  lemma {:induction false} RunKeepsSound(w: World, ops: seq<Operation>)
    requires Sound(w) && Allowed(w, ops)
    ensures Run(w, ops).Some? && Sound(Run(w, ops).value)
    decreases ops
  {
    if ops != [] {
      FaultIffNull(w, ops[0]);
      StepKeepsSound(w, ops[0]);
      RunKeepsSound(Step(w, ops[0]).value, ops[1..]);
    }
  }

  lemma {:induction false} RunLeaksNothing(w: World, ops: seq<Operation>)
    requires Run(w, ops).Some?
    requires w.leaked == {} && forall i :: 0 <= i < |ops| ==> !ops[i].SetRaw?
    ensures Run(w, ops).value.leaked == {}
    decreases ops
  {
    if ops != [] {
      assert !ops[0].SetRaw?;
      assert forall i :: 0 <= i < |ops[1..]| ==> ops[1..][i] == ops[i + 1];
      RunLeaksNothing(Step(w, ops[0]).value, ops[1..]);
    }
  }

  /**
   Every allowed run goes through: nothing is deleted twice or read after it was deleted. No
   string has two owners, and every live string has its owner unless a raw pointer was assigned
   over it.
   */
  lemma {:induction false} EveryRunIsSound(next: nat, ops: seq<Operation>)
    requires next > 0 && Allowed(Empty(next), ops)
    ensures Run(Empty(next), ops).Some?
    ensures var w := Run(Empty(next), ops).value;
            && (forall x, y, p :: Owns(w, x, p) && Owns(w, y, p) ==> x == y)
            && (forall p :: p in w.memory.live <==> p in w.leaked || exists x :: Owns(w, x, p))
            && ((forall i :: 0 <= i < |ops| ==> !ops[i].SetRaw?) ==> w.leaked == {})
  {
    RunKeepsSound(Empty(next), ops);
    var w := Run(Empty(next), ops).value;
    forall p ensures p in w.memory.live <==> p in w.leaked || exists x :: Owns(w, x, p) {
      if x :| Owns(w, x, p) {
        assert w.vars[x].word in w.memory.live;
      }
    }
    if forall i :: 0 <= i < |ops| ==> !ops[i].SetRaw? {
      RunLeaksNothing(Empty(next), ops);
    }
  }

  /** When all variants are destroyed and no raw pointer was assigned, no string is left. */
  lemma {:induction false} EverythingIsDeleted(next: nat, ops: seq<Operation>)
    requires next > 0 && Allowed(Empty(next), ops)
    requires Run(Empty(next), ops).Some? && Run(Empty(next), ops).value.vars == map[]
    requires forall i :: 0 <= i < |ops| ==> !ops[i].SetRaw?
    ensures Run(Empty(next), ops).value.memory.live == map[]
  {
    EveryRunIsSound(next, ops);
    var w := Run(Empty(next), ops).value;
    assert forall p :: p in w.memory.live ==> exists x :: Owns(w, x, p);
    assert w.memory.live.Keys == {};
  }

  // ---- values ----

  /** What can be read from a variant. */
  datatype Seen = Scalar(kind: Kind, word: nat) | Holds(s: string) | Nothing

  function See(w: World, x: nat): Seen
    requires x in w.vars
  {
    var v := w.vars[x];
    if v.kind != Text then Scalar(v.kind, v.word)
    else if v.word in w.memory.live then Holds(w.memory.live[v.word])
    else Nothing
  }

  /** The variant loses its string to the one it is moved to. */
  predicate GivesAway(w: World, op: Operation, x: nat) {
    (op.NewMove? || op.SetMove?) && op.from == x && op.x != x && x in w.vars && w.vars[x].kind == Text
  }

  /** An operation changes no other variant than its target and the string it moves away. */
  lemma {:induction false} OthersUnchanged(w: World, op: Operation, y: nat)
    requires Possible(w, op) && Sound(w) && Step(w, op).Some?
    requires y in w.vars && y != op.x
    ensures y in Step(w, op).value.vars
    ensures See(Step(w, op).value, y) == if GivesAway(w, op, y) then Nothing else See(w, y)
  {
    if HasText(w.vars[y]) {
      assert Owns(w, y, w.vars[y].word);
      if op.x in w.vars && HasText(w.vars[op.x]) {
        assert Owns(w, op.x, w.vars[op.x].word);
      }
    }
  }

  /** The target holds what it was given: the source's value, the string, or the scalar. */
  lemma {:induction false} TargetReads(w: World, op: Operation)
    requires Possible(w, op) && Sound(w) && Step(w, op).Some? && !op.Destroy?
    ensures op.x in Step(w, op).value.vars
    ensures var seen := See(Step(w, op).value, op.x);
            && (HasSource(op) ==> seen == See(w, op.from))
            && (op.NewString? || op.SetString? ==> seen == Holds(op.s))
            && (op.NewScalar? || op.SetScalar? ==> seen == Scalar(op.kind, op.word))
            && (op.NewRaw? || op.SetRaw? ==> seen == if op.raw.None? then Nothing else Holds(op.raw.value))
  {
    if HasSource(op) && HasText(w.vars[op.from]) {
      assert Owns(w, op.from, w.vars[op.from].word);
      if op.x in w.vars && HasText(w.vars[op.x]) {
        assert Owns(w, op.x, w.vars[op.x].word);
      }
    }
  }

  /**
   Which variants there are after an operation, and their null flags: only default construction
   sets the flag; constructing from anything else and assigning a scalar clear it, assigning a
   variant takes over the flag of the other, and assigning a string leaves it as it was.
   */
  lemma {:induction false} NullFlag(w: World, op: Operation, y: nat)
    requires Possible(w, op) && Step(w, op).Some?
    ensures var vars := Step(w, op).value.vars;
            && (y in vars <==> if y == op.x then !op.Destroy? else y in w.vars)
            && (y in vars ==>
                  vars[y].isNull
                  == if y != op.x then w.vars[y].isNull
                     else if op.NewDefault? then true
                     else if op.SetCopy? || op.SetMove? then w.vars[op.from].isNull
                     else if op.SetString? || op.SetRaw? then w.vars[y].isNull
                     else false)
  {
  }

  // ---- the objects ----

  /** The memory the strings are allocated from. */
  class Strings {
    var live: map<nat, string>
    var next: nat

    constructor (first: nat)
      ensures live == map[] && next == first
    {
      live, next := map[], first;
    }

    function State(): Memory
      reads this
    {
      Memory(live, next)
    }

    method New(s: string) returns (p: nat)
      modifies this
      ensures (p, State()) == Allocate(old(State()), s)
    {
      p := next;
      live, next := live[p := s], next + 1;
    }

    method Delete(p: nat)
      requires p in live
      modifies this
      ensures live == old(live) - {p} && next == old(next)
    {
      live := live - {p};
    }
  }

  class PbVariant {
    var kind: Kind
    var word: nat
    var isNull: bool

    function Value(): Tagged
      reads this
    {
      Tagged(kind, word, isNull)
    }

    constructor Default(garbage: nat)
      ensures Value() == Tagged(Int32, garbage, true)
    {
      kind, word, isNull := Int32, garbage, true;
    }

    constructor FromScalar(kind: Kind, word: nat)
      requires kind != Text
      ensures Value() == Tagged(kind, word, false)
    {
      this.kind, this.word, isNull := kind, word, false;
    }

    constructor FromString(mem: Strings, s: string)
      modifies mem
      ensures (word, mem.State()) == Allocate(old(mem.State()), s)
      ensures kind == Text && !isNull
    {
      var p := mem.New(s);
      kind, word, isNull := Text, p, false;
    }

    constructor FromRaw(p: nat)
      ensures Value() == Tagged(Text, p, false)
    {
      kind, word, isNull := Text, p, false;
    }

    constructor Copy(mem: Strings, v: PbVariant)
      requires CopyConstruct(mem.State(), v.Value()).Some?
      modifies mem
      ensures Some((Value(), mem.State())) == old(CopyConstruct(mem.State(), v.Value()))
    {
      kind, isNull := v.kind, false;
      if v.kind == Text {
        var p := mem.New(mem.live[v.word]);
        word := p;
      } else {
        word := v.word;
      }
    }

    constructor Move(v: PbVariant)
      modifies v
      ensures Value() == old(v.Value()).(isNull := false)
      ensures v.Value() == MovedFrom(old(v.Value()))
    {
      kind, word, isNull := v.kind, v.word, false;
      new;
      if v.kind == Text {
        v.word := 0;
      }
    }

    /** `freeString`, and so the destructor. */
    method FreeString(mem: Strings)
      requires AfterFree(mem.State(), Value()).Some?
      modifies this`word, mem
      ensures Some(mem.State()) == old(AfterFree(mem.State(), Value()))
      ensures word == if kind == Text then 0 else old(word)
    {
      if kind == Text && word != 0 {
        mem.Delete(word);
        word := 0;
      }
    }

    method AssignScalar(mem: Strings, kind: Kind, word: nat)
      requires kind != Text && AfterFree(mem.State(), Value()).Some?
      modifies this, mem
      ensures Some(mem.State()) == old(AfterFree(mem.State(), Value()))
      ensures Value() == Tagged(kind, word, false)
    {
      FreeString(mem);
      this.kind, this.word, isNull := kind, word, false;
    }

    method AssignString(mem: Strings, s: string)
      requires AfterAssign(mem.State(), Value(), s).Some?
      modifies this`kind, this`word, mem
      ensures Some((Value(), mem.State())) == old(AfterAssign(mem.State(), Value(), s))
    {
      if kind == Text {
        mem.live := mem.live[word := s];
      } else {
        kind := Text;
        word := mem.New(s);
      }
    }

    method AssignRaw(p: nat)
      modifies this`kind, this`word
      ensures Value() == old(Value()).(kind := Text, word := p)
    {
      if kind == Text {
        word := p;
      } else {
        kind, word := Text, p;
      }
    }

    method AssignCopy(mem: Strings, v: PbVariant)
      requires this != v ==> CopyAssign(mem.State(), Value(), v.Value()).Some?
      modifies this, mem
      ensures if this == v then Value() == old(Value()) && mem.State() == old(mem.State())
              else Some((Value(), mem.State())) == old(CopyAssign(mem.State(), Value(), v.Value()))
    {
      if this == v {
        return;
      }
      if kind == Text {
        FreeString(mem);
      }
      if v.kind == Text {
        word := mem.New(mem.live[v.word]);
      } else {
        word := v.word;
      }
      kind := v.kind;
      isNull := v.isNull;
    }

    method AssignMove(mem: Strings, v: PbVariant)
      requires this != v ==> AfterFree(mem.State(), Value()).Some?
      modifies this, v, mem
      ensures if this == v then Value() == old(Value()) && mem.State() == old(mem.State())
              else && Some(mem.State()) == old(AfterFree(mem.State(), Value()))
                   && Value() == old(v.Value())
                   && v.Value() == MovedFrom(old(v.Value()))
    {
      if this == v {
        return;
      }
      if kind == Text {
        FreeString(mem);
      }
      word := v.word;
      if v.kind == Text {
        v.word := 0;
      }
      kind := v.kind;
      isNull := v.isNull;
    }
  }
}
