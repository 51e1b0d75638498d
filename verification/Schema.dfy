/**
 Message types and message values as the protobuf reflection interface presents them:
 a descriptor is a list of fields, a message has one slot for each field of its type.
 Types refer to each other by index, so recursive types are allowed.
 */
module Schema {
  datatype EnumValue = EnumValue(name: string, number: int)

  /** The C++ type of a field (`cpp_type()`). */
  datatype Kind =
    | Int32
    | Int64
    | UInt32
    | UInt64
    | Double
    | Float
    | Bool
    | Enum(values: seq<EnumValue>)
    | String
    | Message(index: nat)

  /** A finite double or float is modelled by its real value. */
  datatype Value =
    | Num(n: int)        // integers, and the number of an enum value
    | Real(r: real)
    | Truth(b: bool)
    | Str(s: string)
    | Sub(m: Msg)

  /** `Unset` and `One` belong to singular fields (the presence bit), `Many` to repeated fields. */
  datatype Slot =
    | Unset
    | One(v: Value)
    | Many(vs: seq<Value>)

  datatype Msg = Msg(slots: seq<Slot>)

  datatype Field = Field(name: string, kind: Kind, repeated: bool, default: Value)

  type Descriptor = seq<Field>

  type Schema = seq<Descriptor>

  const TWO31: int := 0x8000_0000
  const TWO32: int := 0x1_0000_0000
  const TWO63: int := 0x8000_0000_0000_0000
  const TWO64: int := 0x1_0000_0000_0000_0000

  predicate IsIdentifierChar(c: char) {
    'a' <= c <= 'z' || 'A' <= c <= 'Z' || '0' <= c <= '9' || c == '_'
  }

  predicate IsIdentifier(s: string) {
    s != "" && forall i :: 0 <= i < |s| ==> IsIdentifierChar(s[i])
  }

  // ---- enum types ----

  /** `EnumDescriptor::FindValueByNumber`: the position of the first value declared with that number, or the length. */
  function FindByNumber(values: seq<EnumValue>, number: int): (i: nat)
    ensures i <= |values|
    ensures i < |values| ==> values[i].number == number
    ensures forall j :: 0 <= j < i ==> values[j].number != number
  {
    if values == [] || values[0].number == number then 0 else 1 + FindByNumber(values[1..], number)
  }

  /** `EnumDescriptor::FindValueByName`: the position of the value with that name, or the length. */
  function FindByName(values: seq<EnumValue>, name: string): (i: nat)
    ensures i <= |values|
    ensures i < |values| ==> values[i].name == name
    ensures forall j :: 0 <= j < i ==> values[j].name != name
  {
    if values == [] || values[0].name == name then 0 else 1 + FindByName(values[1..], name)
  }

  // ---- well-formed schemas ----

  predicate DistinctFieldNames(d: Descriptor) {
    forall i, j :: 0 <= i < j < |d| ==> d[i].name != d[j].name
  }

  predicate DistinctValueNames(values: seq<EnumValue>) {
    forall i, j :: 0 <= i < j < |values| ==> values[i].name != values[j].name
  }

  predicate WfKind(types: nat, k: Kind) {
    match k
    case Enum(values) =>
      && |values| < TWO31   // counted by an int
      && DistinctValueNames(values)
      && (forall i :: 0 <= i < |values| ==>
            IsIdentifier(values[i].name) && -TWO31 <= values[i].number < TWO31)
    case Message(index) => index < types
    case _ => true
  }

  predicate WfField(types: nat, f: Field) {
    && IsIdentifier(f.name)
    && WfKind(types, f.kind)
    && (f.kind.Message? || ScalarOk(f.kind, f.default))
  }

  predicate WfSchema(s: Schema) {
    forall t :: 0 <= t < |s| ==> WfDescriptor(|s|, s[t])
  }

  predicate WfDescriptor(types: nat, d: Descriptor) {
    && DistinctFieldNames(d)
    && (forall i :: 0 <= i < |d| ==> WfField(types, d[i]))
  }

  // ---- well-typed messages ----

  predicate ScalarOk(k: Kind, v: Value) {
    match k
    case Int32 => v.Num? && -TWO31 <= v.n < TWO31
    case Int64 => v.Num? && -TWO63 <= v.n < TWO63
    case UInt32 => v.Num? && 0 <= v.n < TWO32
    case UInt64 => v.Num? && 0 <= v.n < TWO64
    case Double => v.Real?
    case Float => v.Real?
    case Bool => v.Truth?
    case Enum(values) => v.Num? && FindByNumber(values, v.n) < |values|
    case String => v.Str?
    case Message(_) => false
  }

  predicate ValueOk(s: Schema, k: Kind, v: Value)
    decreases v
  {
    if k.Message? then v.Sub? && WellTyped(s, k.index, v.m) else ScalarOk(k, v)
  }

  predicate SlotOk(s: Schema, f: Field, slot: Slot)
    decreases slot
  {
    match slot
    case Unset => !f.repeated
    case One(v) => !f.repeated && ValueOk(s, f.kind, v)
    case Many(vs) => f.repeated && forall i :: 0 <= i < |vs| ==> ValueOk(s, f.kind, vs[i])
  }

  predicate WellTyped(s: Schema, ty: nat, m: Msg)
    decreases m
  {
    && ty < |s|
    && |m.slots| == |s[ty]|
    && forall i :: 0 <= i < |m.slots| ==> SlotOk(s, s[ty][i], m.slots[i])
  }

  // ---- the empty message of a type ----

  function EmptySlot(f: Field): Slot {
    if f.repeated then Many([]) else Unset
  }

  /** A freshly created message: nothing set. */
  function Empty(s: Schema, ty: nat): (m: Msg)
    requires ty < |s|
    ensures WellTyped(s, ty, m)
  {
    Msg(seq(|s[ty]|, i requires 0 <= i < |s[ty]| => EmptySlot(s[ty][i])))
  }
}
