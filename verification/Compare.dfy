/**
 Comparing messages of one type: the loops of the comparer, and the functions they compute.
 Every result is a 32-bit integer; integer fields are compared by subtraction.
 */
module Compare {
  import opened Strings
  import opened Options
  import opened Schema

  /** Narrowing to `int32_t`. */
  function Narrow(n: int): (r: int)
    ensures -TWO31 <= r < TWO31
    ensures (r - n) % TWO32 == 0
  {
    (n + TWO31) % TWO32 - TWO31
  }

  /**
   Message fields of the type, at any depth, refer to earlier types, so reading an unset field
   as the default instance ends.
   */
  predicate Layered(s: Schema, ty: nat)
    decreases ty
  {
    ty < |s| && forall i :: 0 <= i < |s[ty]| ==> LayeredField(s, ty, s[ty][i])
  }

  predicate LayeredField(s: Schema, ty: nat, f: Field)
    decreases ty, 0
  {
    f.kind.Message? ==> f.kind.index < ty && Layered(s, f.kind.index)
  }

  /** In addition no message field, at any depth, is repeated. */
  predicate Comparable(s: Schema, ty: nat)
    decreases ty
  {
    ty < |s| && forall i :: 0 <= i < |s[ty]| ==> ComparableField(s, ty, s[ty][i])
  }

  predicate ComparableField(s: Schema, ty: nat, f: Field)
    decreases ty, 0
  {
    f.kind.Message? ==> !f.repeated && f.kind.index < ty && Comparable(s, f.kind.index)
  }

  /** A singular field as the reflection getters read it: its value or its default. */
  function Read(s: Schema, f: Field, slot: Slot): (v: Value)
    requires WfField(|s|, f) && SlotOk(s, f, slot) && !f.repeated
    ensures ValueOk(s, f.kind, v)
  {
    if slot.One? then slot.v
    else if f.kind.Message? then
      var v := Sub(Empty(s, f.kind.index));
      assert ValueOk(s, f.kind, v);
      v
    else f.default
  }

  /** The value of a boolean in arithmetic. */
  function BoolInt(b: bool): int {
    if b then 1 else 0
  }

  /** One scalar against another. A repeated enum field subtracts descriptor pointers, that is, positions. */
  function CompareScalar(k: Kind, repeated: bool, a: Value, b: Value): int
    requires ScalarOk(k, a) && ScalarOk(k, b)
  {
    match k
    case String => StringCompare(a.s, b.s)
    case Double => CompareReal(repeated, a.r, b.r)
    case Float => CompareReal(repeated, a.r, b.r)
    case Bool => Narrow(BoolInt(a.b) - BoolInt(b.b))
    case Enum(values) =>
      if repeated then Narrow(FindByNumber(values, a.n) - FindByNumber(values, b.n)) else Narrow(a.n - b.n)
    case _ => Narrow(a.n - b.n)
  }

  function CompareReal(repeated: bool, a: real, b: real): int {
    var unit := if repeated then 1 else 2;
    if a == b then 0 else if a > b then unit else -unit
  }

  /** Element by element, then the shorter list first. */
  function CompareLists(k: Kind, xs: seq<Value>, ys: seq<Value>): int
    requires forall i :: 0 <= i < |xs| ==> ScalarOk(k, xs[i])
    requires forall i :: 0 <= i < |ys| ==> ScalarOk(k, ys[i])
  {
    if xs == [] then (if ys == [] then 0 else -1)
    else if ys == [] then 1
    else
      var c := CompareScalar(k, true, xs[0], ys[0]);
      if c != 0 then c else CompareLists(k, xs[1..], ys[1..])
  }

  function CompareSlots(s: Schema, ty: nat, f: Field, x: Slot, y: Slot): int
    requires WfSchema(s) && WfField(|s|, f) && ComparableField(s, ty, f) && SlotOk(s, f, x) && SlotOk(s, f, y)
    decreases ty, 0
  {
    if f.repeated then
      assert forall i :: 0 <= i < |x.vs| ==> ValueOk(s, f.kind, x.vs[i]);
      assert forall i :: 0 <= i < |y.vs| ==> ValueOk(s, f.kind, y.vs[i]);
      CompareLists(f.kind, x.vs, y.vs)
    else
      var a, b := Read(s, f, x), Read(s, f, y);
      if f.kind.Message? then CompareFrom(s, f.kind.index, a.m, b.m, 0) else CompareScalar(f.kind, false, a, b)
  }

  /** The first nonzero comparison among the fields from i on. */
  function CompareFrom(s: Schema, ty: nat, a: Msg, b: Msg, i: nat): int
    requires WfSchema(s) && Comparable(s, ty) && WellTyped(s, ty, a) && WellTyped(s, ty, b) && i <= |s[ty]|
    decreases ty, 1 + |s[ty]| - i
  {
    if i == |s[ty]| then 0
    else
      assert WfDescriptor(|s|, s[ty]) && WfField(|s|, s[ty][i]) && ComparableField(s, ty, s[ty][i]);
      var c := CompareSlots(s, ty, s[ty][i], a.slots[i], b.slots[i]);
      if c != 0 then c else CompareFrom(s, ty, a, b, i + 1)
  }

  /** `compare`; a null message comes before every other. */
  function CompareMessages(s: Schema, ty: nat, a: Option<Msg>, b: Option<Msg>): int
    requires WfSchema(s) && Comparable(s, ty)
    requires a.Some? ==> WellTyped(s, ty, a.value)
    requires b.Some? ==> WellTyped(s, ty, b.value)
  {
    if a.None? && b.None? then 0
    else if a.None? then -1
    else if b.None? then 1
    else CompareFrom(s, ty, a.value, b.value, 0)
  }

  /** `less`. */
  predicate Less(s: Schema, ty: nat, a: Option<Msg>, b: Option<Msg>)
    requires WfSchema(s) && Comparable(s, ty)
    requires a.Some? ==> WellTyped(s, ty, a.value)
    requires b.Some? ==> WellTyped(s, ty, b.value)
  {
    CompareMessages(s, ty, a, b) < 0
  }

  /** Whether field i sorts descending; fields past the flags sort ascending. */
  predicate Descending(flags: seq<bool>, i: nat) {
    i < |flags| && flags[i]
  }

  /** The decision of `orderless` from field i on. */
  predicate OrderlessFrom(s: Schema, ty: nat, flags: seq<bool>, a: Msg, b: Msg, i: nat)
    requires WfSchema(s) && Comparable(s, ty) && WellTyped(s, ty, a) && WellTyped(s, ty, b) && i <= |s[ty]|
    decreases |s[ty]| - i
  {
    if i == |s[ty]| then false
    else
      assert WfDescriptor(|s|, s[ty]) && WfField(|s|, s[ty][i]) && ComparableField(s, ty, s[ty][i]);
      var c := CompareSlots(s, ty, s[ty][i], a.slots[i], b.slots[i]);
      if c == 0 then OrderlessFrom(s, ty, flags, a, b, i + 1)
      else (if Descending(flags, i) then Narrow(-c) else c) < 0
  }

  /** `orderless`: the codes -1 and 1 returned for a null message are both true. */
  predicate Orderless(s: Schema, ty: nat, flags: seq<bool>, a: Option<Msg>, b: Option<Msg>)
    requires WfSchema(s) && Comparable(s, ty)
    requires a.Some? ==> WellTyped(s, ty, a.value)
    requires b.Some? ==> WellTyped(s, ty, b.value)
  {
    if a.None? && b.None? then false
    else if a.None? || b.None? then true
    else OrderlessFrom(s, ty, flags, a.value, b.value, 0)
  }

  // ---- the loops ----

  /** `compareRepeatedFieldValue` for scalar elements. */
  method CompareRepeatedFieldValue(k: Kind, xs: seq<Value>, ys: seq<Value>) returns (result: int)
    requires forall i :: 0 <= i < |xs| ==> ScalarOk(k, xs[i])
    requires forall i :: 0 <= i < |ys| ==> ScalarOk(k, ys[i])
    ensures result == CompareLists(k, xs, ys)
  {
    var size := if |xs| < |ys| then |xs| else |ys|;
    result := 0;
    var i := 0;
    while i < size && result == 0
      invariant 0 <= i <= size
      invariant if result == 0 then CompareLists(k, xs, ys) == CompareLists(k, xs[i..], ys[i..])
                else CompareLists(k, xs, ys) == result
    {
      result := CompareScalar(k, true, xs[i], ys[i]);
      assert xs[i..][1..] == xs[i + 1..] && ys[i..][1..] == ys[i + 1..];
      i := i + 1;
    }
    if result == 0 {
      if |xs| < |ys| {
        return -1;
      } else if |xs| > |ys| {
        return 1;
      }
    }
  }

  /** `compareFieldValue` and `compareUnRepeatedFieldValue` for two fields of the same type. */
  method CompareFieldValue(s: Schema, ty: nat, f: Field, x: Slot, y: Slot) returns (cmp: int)
    requires WfSchema(s) && WfField(|s|, f) && ComparableField(s, ty, f) && SlotOk(s, f, x) && SlotOk(s, f, y)
    ensures cmp == CompareSlots(s, ty, f, x, y)
    decreases ty, 0
  {
    if f.repeated {
      assert forall i :: 0 <= i < |x.vs| ==> ValueOk(s, f.kind, x.vs[i]);
      assert forall i :: 0 <= i < |y.vs| ==> ValueOk(s, f.kind, y.vs[i]);
      cmp := CompareRepeatedFieldValue(f.kind, x.vs, y.vs);
    } else {
      var a, b := Read(s, f, x), Read(s, f, y);
      if f.kind.Message? {
        cmp := CompareTo(s, f.kind.index, Some(a.m), Some(b.m));
      } else {
        cmp := CompareScalar(f.kind, false, a, b);
      }
    }
  }

  /** `compare`. */
  method CompareTo(s: Schema, ty: nat, a: Option<Msg>, b: Option<Msg>) returns (cmp: int)
    requires WfSchema(s) && Comparable(s, ty)
    requires a.Some? ==> WellTyped(s, ty, a.value)
    requires b.Some? ==> WellTyped(s, ty, b.value)
    ensures cmp == CompareMessages(s, ty, a, b)
    decreases ty, 1
  {
    if a.None? && b.None? {
      return 0;
    } else if a.None? {
      return -1;
    } else if b.None? {
      return 1;
    }
    assert WfDescriptor(|s|, s[ty]);
    for i := 0 to |s[ty]|
      invariant CompareFrom(s, ty, a.value, b.value, 0) == CompareFrom(s, ty, a.value, b.value, i)
    {
      assert WfField(|s|, s[ty][i]) && ComparableField(s, ty, s[ty][i]);
      assert SlotOk(s, s[ty][i], a.value.slots[i]) && SlotOk(s, s[ty][i], b.value.slots[i]);
      cmp := CompareFieldValue(s, ty, s[ty][i], a.value.slots[i], b.value.slots[i]);
      if cmp != 0 {
        return;
      }
    }
    return 0;
  }

  /** `orderless::operator()`. */
  method OrderlessTo(s: Schema, ty: nat, flags: seq<bool>, a: Option<Msg>, b: Option<Msg>) returns (r: bool)
    requires WfSchema(s) && Comparable(s, ty)
    requires a.Some? ==> WellTyped(s, ty, a.value)
    requires b.Some? ==> WellTyped(s, ty, b.value)
    ensures r == Orderless(s, ty, flags, a, b)
  {
    if a.None? && b.None? {
      return false;
    } else if a.None? {
      return true;
    } else if b.None? {
      return true;
    }
    assert WfDescriptor(|s|, s[ty]);
    for i := 0 to |s[ty]|
      invariant OrderlessFrom(s, ty, flags, a.value, b.value, 0) == OrderlessFrom(s, ty, flags, a.value, b.value, i)
    {
      assert WfField(|s|, s[ty][i]) && ComparableField(s, ty, s[ty][i]);
      assert SlotOk(s, s[ty][i], a.value.slots[i]) && SlotOk(s, s[ty][i], b.value.slots[i]);
      var cmp := CompareFieldValue(s, ty, s[ty][i], a.value.slots[i], b.value.slots[i]);
      if cmp != 0 {
        var isdesc := false;
        if i < |flags| {
          isdesc := flags[i];
        }
        return (if isdesc then Narrow(-cmp) else cmp) < 0;
      }
    }
    return false;
  }
}
