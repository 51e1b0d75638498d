/** Hash codes of messages: polynomial hashing with a fixed multiplier modulo 2^64. */
module Hash {
  import opened Options
  import opened Schema
  import opened Compare

  const PRIME: int := 99989
  const SEED: int := 41

  /** The hash functions of the C++ library, for scalars and for enum descriptor pointers. */
  datatype Hasher = Hasher(scalar: (Kind, Value) -> int, pointer: (Kind, nat) -> int)

  /** One round: `hash * PRIME + part` in 64-bit arithmetic. */
  function Step(acc: int, part: int): (r: int)
    ensures 0 <= r < TWO64
  {
    (acc * PRIME + part) % TWO64
  }

  /** The accumulator after all parts. */
  function Horner(acc: int, parts: seq<int>): int
    decreases parts
  {
    if parts == [] then acc else Horner(Step(acc, parts[0]), parts[1..])
  }

  /** An element of a repeated scalar field. A repeated enum field hashes descriptor pointers. */
  function ElementHash(h: Hasher, k: Kind, v: Value): int
    requires ScalarOk(k, v)
  {
    if k.Enum? then h.pointer(k, FindByNumber(k.values, v.n)) % TWO64 else h.scalar(k, v) % TWO64
  }

  function ElementHashes(h: Hasher, s: Schema, ty: nat, f: Field, vs: seq<Value>): (parts: seq<int>)
    requires WfSchema(s) && LayeredField(s, ty, f) && forall i :: 0 <= i < |vs| ==> ValueOk(s, f.kind, vs[i])
    ensures |parts| == |vs|
    decreases ty, 0
  {
    seq(|vs|, i requires 0 <= i < |vs| =>
      assert ValueOk(s, f.kind, vs[i]);
      if f.kind.Message? then HashMessage(h, s, f.kind.index, vs[i].m) else ElementHash(h, f.kind, vs[i]))
  }

  /** `hashcodeByField`. */
  function FieldHash(h: Hasher, s: Schema, ty: nat, f: Field, slot: Slot): int
    requires WfSchema(s) && WfField(|s|, f) && LayeredField(s, ty, f) && SlotOk(s, f, slot)
    decreases ty, 1
  {
    if f.repeated then Horner(0, ElementHashes(h, s, ty, f, slot.vs))
    else if f.kind.Message? then
      assert ValueOk(s, f.kind, Read(s, f, slot));
      HashMessage(h, s, f.kind.index, Read(s, f, slot).m)
    else h.scalar(f.kind, Read(s, f, slot)) % TWO64
  }

  function FieldHashes(h: Hasher, s: Schema, ty: nat, m: Msg): (parts: seq<int>)
    requires WfSchema(s) && Layered(s, ty) && WellTyped(s, ty, m)
    ensures |parts| == |s[ty]|
    decreases ty, 2
  {
    assert WfDescriptor(|s|, s[ty]);
    assert forall i :: 0 <= i < |s[ty]| ==> WfField(|s|, s[ty][i]) && LayeredField(s, ty, s[ty][i]);
    seq(|s[ty]|, i requires 0 <= i < |s[ty]| =>
      assert SlotOk(s, s[ty][i], m.slots[i]);
      FieldHash(h, s, ty, s[ty][i], m.slots[i]))
  }

  /** `HashCode::hashcode`. */
  function HashMessage(h: Hasher, s: Schema, ty: nat, m: Msg): int
    requires WfSchema(s) && Layered(s, ty) && WellTyped(s, ty, m)
    decreases ty, 3
  {
    Horner(SEED, FieldHashes(h, s, ty, m))
  }

  // ---- the loops ----

  lemma {:induction false} HornerSnoc(acc: int, parts: seq<int>, last: int)
    ensures Horner(acc, parts + [last]) == Step(Horner(acc, parts), last)
    decreases parts
  {
    if parts == [] {
      assert parts + [last] == [last];
    } else {
      assert (parts + [last])[1..] == parts[1..] + [last];
      HornerSnoc(Step(acc, parts[0]), parts[1..], last);
    }
  }

  /** `hashcodeByRepeatedField`. */
  method HashcodeByRepeatedField(h: Hasher, s: Schema, ty: nat, f: Field, vs: seq<Value>) returns (result: int)
    requires WfSchema(s) && WfField(|s|, f) && LayeredField(s, ty, f)
    requires forall i :: 0 <= i < |vs| ==> ValueOk(s, f.kind, vs[i])
    ensures result == Horner(0, ElementHashes(h, s, ty, f, vs))
    decreases ty, 0
  {
    ghost var parts := ElementHashes(h, s, ty, f, vs);
    result := 0;
    for i := 0 to |vs|
      invariant result == Horner(0, parts[..i])
    {
      assert ValueOk(s, f.kind, vs[i]);
      var part;
      if f.kind.Message? {
        part := Hashcode(h, s, f.kind.index, Some(vs[i].m));
      } else {
        part := ElementHash(h, f.kind, vs[i]);
      }
      result := Step(result, part);
      HornerSnoc(0, parts[..i], part);
      assert parts[..i + 1] == parts[..i] + [part];
    }
    assert parts[..|vs|] == parts;
  }

  /** `hashcodeByField` and `hashcodeByUnRepeatedField`. */
  method HashcodeByField(h: Hasher, s: Schema, ty: nat, f: Field, slot: Slot) returns (result: int)
    requires WfSchema(s) && WfField(|s|, f) && LayeredField(s, ty, f) && SlotOk(s, f, slot)
    ensures result == FieldHash(h, s, ty, f, slot)
    decreases ty, 1
  {
    if f.repeated {
      result := HashcodeByRepeatedField(h, s, ty, f, slot.vs);
    } else {
      var v := Read(s, f, slot);
      if f.kind.Message? {
        assert ValueOk(s, f.kind, v);
        result := Hashcode(h, s, f.kind.index, Some(v.m));
      } else {
        result := h.scalar(f.kind, v) % TWO64;
      }
    }
  }

  /** `HashCode::hashcode`; a null message has hash code 0. */
  method Hashcode(h: Hasher, s: Schema, ty: nat, m: Option<Msg>) returns (hashcode: int)
    requires WfSchema(s) && Layered(s, ty) && (m.Some? ==> WellTyped(s, ty, m.value))
    ensures hashcode == if m.None? then 0 else HashMessage(h, s, ty, m.value)
    decreases ty, 3
  {
    if m.None? {
      return 0;
    }
    ghost var parts := FieldHashes(h, s, ty, m.value);
    assert WfDescriptor(|s|, s[ty]);
    hashcode := SEED;
    for i := 0 to |s[ty]|
      invariant hashcode == Horner(SEED, parts[..i])
    {
      assert WfField(|s|, s[ty][i]) && LayeredField(s, ty, s[ty][i]);
      assert SlotOk(s, s[ty][i], m.value.slots[i]);
      var part := HashcodeByField(h, s, ty, s[ty][i], m.value.slots[i]);
      hashcode := Step(hashcode, part);
      HornerSnoc(SEED, parts[..i], part);
      assert parts[..i + 1] == parts[..i] + [part];
    }
    assert parts[..|s[ty]|] == parts;
  }
}
