/**
 Comparison without any window: exactly when `compare` gives 0, and for which types `equals_to`
 is right for all messages.
 */
module CompareExact {
  import opened Options
  import opened Schema
  import opened Compare
  import opened Lexical
  import opened CompareOrder

  // ---- when compare gives 0 ----

  /** Integers a multiple of 2^32 apart, or equal values of another kind. */
  predicate CongruentScalar(k: Kind, repeated: bool, a: Value, b: Value)
    requires ScalarOk(k, a) && ScalarOk(k, b)
  {
    var x, y := AtomOf(k, repeated, a), AtomOf(k, repeated, b);
    if x.IntAtom? then (x.n - y.n) % TWO32 == 0 else x == y
  }

  predicate CongruentLists(k: Kind, xs: seq<Value>, ys: seq<Value>)
    requires forall i :: 0 <= i < |xs| ==> ScalarOk(k, xs[i])
    requires forall i :: 0 <= i < |ys| ==> ScalarOk(k, ys[i])
  {
    |xs| == |ys| && forall i :: 0 <= i < |xs| ==> CongruentScalar(k, true, xs[i], ys[i])
  }

  predicate CongruentSlots(s: Schema, ty: nat, f: Field, x: Slot, y: Slot)
    requires WfSchema(s) && WfField(|s|, f) && ComparableField(s, ty, f) && SlotOk(s, f, x) && SlotOk(s, f, y)
    decreases ty, 0
  {
    if f.repeated then
      assert forall i :: 0 <= i < |x.vs| ==> ValueOk(s, f.kind, x.vs[i]);
      assert forall i :: 0 <= i < |y.vs| ==> ValueOk(s, f.kind, y.vs[i]);
      CongruentLists(f.kind, x.vs, y.vs)
    else if f.kind.Message? then CongruentFrom(s, f.kind.index, Read(s, f, x).m, Read(s, f, y).m, 0)
    else CongruentScalar(f.kind, false, Read(s, f, x), Read(s, f, y))
  }

  /**
   From field i on, at any depth: lists have equal lengths, compared integers are congruent
   modulo 2^32, and everything else is equal.
   */
  predicate CongruentFrom(s: Schema, ty: nat, a: Msg, b: Msg, i: nat)
    requires WfSchema(s) && Comparable(s, ty) && WellTyped(s, ty, a) && WellTyped(s, ty, b) && i <= |s[ty]|
    decreases ty, 1 + |s[ty]| - i
  {
    i < |s[ty]| ==>
      assert WfDescriptor(|s|, s[ty]) && WfField(|s|, s[ty][i]) && ComparableField(s, ty, s[ty][i]);
      CongruentSlots(s, ty, s[ty][i], a.slots[i], b.slots[i]) && CongruentFrom(s, ty, a, b, i + 1)
  }

  lemma {:induction false} ScalarZero(k: Kind, repeated: bool, a: Value, b: Value)
    requires ScalarOk(k, a) && ScalarOk(k, b)
    ensures CompareScalar(k, repeated, a, b) == 0 <==> CongruentScalar(k, repeated, a, b)
  {
    ScalarByKey(k, repeated, a, b);
    WrapArithmetic(AtomOf(k, repeated, a), AtomOf(k, repeated, b));
  }

  lemma {:induction false} ListsZero(k: Kind, xs: seq<Value>, ys: seq<Value>)
    requires forall i :: 0 <= i < |xs| ==> ScalarOk(k, xs[i])
    requires forall i :: 0 <= i < |ys| ==> ScalarOk(k, ys[i])
    ensures CompareLists(k, xs, ys) == 0 <==> CongruentLists(k, xs, ys)
  {
    if xs != [] && ys != [] {
      ScalarZero(k, true, xs[0], ys[0]);
      ListsZero(k, xs[1..], ys[1..]);
      assert forall i :: 1 <= i < |xs| ==> xs[i] == xs[1..][i - 1];
      assert forall i :: 1 <= i < |ys| ==> ys[i] == ys[1..][i - 1];
    }
  }

  lemma {:induction false} SlotsZero(s: Schema, ty: nat, f: Field, x: Slot, y: Slot)
    requires WfSchema(s) && WfField(|s|, f) && ComparableField(s, ty, f) && SlotOk(s, f, x) && SlotOk(s, f, y)
    ensures CompareSlots(s, ty, f, x, y) == 0 <==> CongruentSlots(s, ty, f, x, y)
    decreases ty, 0
  {
    if f.repeated {
      assert forall i :: 0 <= i < |x.vs| ==> ValueOk(s, f.kind, x.vs[i]);
      assert forall i :: 0 <= i < |y.vs| ==> ValueOk(s, f.kind, y.vs[i]);
      ListsZero(f.kind, x.vs, y.vs);
    } else if f.kind.Message? {
      ZeroIsCongruent(s, f.kind.index, Read(s, f, x).m, Read(s, f, y).m, 0);
    } else {
      ScalarZero(f.kind, false, Read(s, f, x), Read(s, f, y));
    }
  }

  /** For any messages of one type, `compare` gives 0 exactly on congruent ones. */
  lemma {:induction false} ZeroIsCongruent(s: Schema, ty: nat, a: Msg, b: Msg, i: nat)
    requires WfSchema(s) && Comparable(s, ty) && WellTyped(s, ty, a) && WellTyped(s, ty, b) && i <= |s[ty]|
    ensures CompareFrom(s, ty, a, b, i) == 0 <==> CongruentFrom(s, ty, a, b, i)
    decreases ty, 1 + |s[ty]| - i
  {
    if i < |s[ty]| {
      var f := s[ty][i];
      assert WfDescriptor(|s|, s[ty]) && WfField(|s|, f) && ComparableField(s, ty, f);
      assert SlotOk(s, f, a.slots[i]) && SlotOk(s, f, b.slots[i]);
      SlotsZero(s, ty, f, a.slots[i], b.slots[i]);
      ZeroIsCongruent(s, ty, a, b, i + 1);
    }
  }

  // ---- types without 64-bit integers ----

  predicate IsWide(k: Kind) {
    k.Int64? || k.UInt64?
  }

  /** The type has a 64-bit integer field, itself or in a message field. */
  predicate Wide(s: Schema, ty: nat)
    requires Comparable(s, ty)
    decreases ty, 1
  {
    exists i :: 0 <= i < |s[ty]| && WideField(s, ty, i)
  }

  predicate WideField(s: Schema, ty: nat, i: nat)
    requires Comparable(s, ty) && i < |s[ty]|
    decreases ty, 0
  {
    assert ComparableField(s, ty, s[ty][i]);
    IsWide(s[ty][i].kind) || (s[ty][i].kind.Message? && Wide(s, s[ty][i].kind.index))
  }

  lemma {:induction false} NarrowScalar(types: nat, k: Kind, repeated: bool, a: Value, b: Value)
    requires WfKind(types, k) && ScalarOk(k, a) && ScalarOk(k, b) && !IsWide(k)
    ensures CongruentScalar(k, repeated, a, b) <==> a == b
  {
    AtomInjective(k, repeated, a, b);
    if k.Enum? {
      assert k.values[FindByNumber(k.values, a.n)].number == a.n;
      assert k.values[FindByNumber(k.values, b.n)].number == b.n;
    }
    var x, y := AtomOf(k, repeated, a), AtomOf(k, repeated, b);
    if x.IntAtom? {
      assert -TWO32 < x.n - y.n < TWO32;
    }
  }

  lemma {:induction false} NarrowLists(types: nat, k: Kind, xs: seq<Value>, ys: seq<Value>)
    requires WfKind(types, k) && !IsWide(k)
    requires forall i :: 0 <= i < |xs| ==> ScalarOk(k, xs[i])
    requires forall i :: 0 <= i < |ys| ==> ScalarOk(k, ys[i])
    ensures CongruentLists(k, xs, ys) <==> xs == ys
  {
    if |xs| == |ys| {
      forall i | 0 <= i < |xs| ensures CongruentScalar(k, true, xs[i], ys[i]) <==> xs[i] == ys[i] {
        NarrowScalar(types, k, true, xs[i], ys[i]);
      }
    }
  }

  lemma {:induction false} NarrowSlots(s: Schema, ty: nat, i: nat, x: Slot, y: Slot)
    requires WfSchema(s) && Comparable(s, ty) && i < |s[ty]| && !WideField(s, ty, i)
    requires WfField(|s|, s[ty][i]) && ComparableField(s, ty, s[ty][i])
    requires SlotOk(s, s[ty][i], x) && SlotOk(s, s[ty][i], y)
    ensures CongruentSlots(s, ty, s[ty][i], x, y) <==> SameSlots(s, ty, s[ty][i], x, y)
    decreases ty, 0
  {
    var f := s[ty][i];
    if f.repeated {
      assert forall j :: 0 <= j < |x.vs| ==> ValueOk(s, f.kind, x.vs[j]);
      assert forall j :: 0 <= j < |y.vs| ==> ValueOk(s, f.kind, y.vs[j]);
      NarrowLists(|s|, f.kind, x.vs, y.vs);
    } else if f.kind.Message? {
      NarrowIsSame(s, f.kind.index, Read(s, f, x).m, Read(s, f, y).m, 0);
    } else {
      NarrowScalar(|s|, f.kind, false, Read(s, f, x), Read(s, f, y));
    }
  }

  lemma {:induction false} NarrowIsSame(s: Schema, ty: nat, a: Msg, b: Msg, i: nat)
    requires WfSchema(s) && Comparable(s, ty) && WellTyped(s, ty, a) && WellTyped(s, ty, b) && i <= |s[ty]|
    requires !Wide(s, ty)
    ensures CongruentFrom(s, ty, a, b, i) <==> SameFrom(s, ty, a, b, i)
    decreases ty, 1 + |s[ty]| - i
  {
    if i < |s[ty]| {
      var f := s[ty][i];
      assert WfDescriptor(|s|, s[ty]) && WfField(|s|, f) && ComparableField(s, ty, f);
      assert SlotOk(s, f, a.slots[i]) && SlotOk(s, f, b.slots[i]);
      assert !WideField(s, ty, i);
      NarrowSlots(s, ty, i, a.slots[i], b.slots[i]);
      NarrowIsSame(s, ty, a, b, i + 1);
    }
  }

  // ---- types with 64-bit integers ----

  /** The position of a field with a 64-bit integer. */
  function FirstWide(s: Schema, ty: nat, i: nat): (k: nat)
    requires Comparable(s, ty) && i <= |s[ty]|
    requires exists j :: i <= j < |s[ty]| && WideField(s, ty, j)
    ensures i <= k < |s[ty]| && WideField(s, ty, k)
    decreases |s[ty]| - i
  {
    if WideField(s, ty, i) then i else FirstWide(s, ty, i + 1)
  }

  lemma {:induction false} WideHasField(s: Schema, ty: nat)
    requires Comparable(s, ty) && Wide(s, ty)
    ensures exists j :: 0 <= j < |s[ty]| && WideField(s, ty, j)
  {
  }

  function WideSlot(s: Schema, ty: nat, f: Field, n: int): (slot: Slot)
    requires WfSchema(s) && WfField(|s|, f) && ComparableField(s, ty, f) && 0 <= n <= TWO32
    requires IsWide(f.kind) || (f.kind.Message? && Wide(s, f.kind.index))
    ensures SlotOk(s, f, slot)
    decreases ty, 0
  {
    var v := if f.kind.Message? then Sub(WideMessage(s, f.kind.index, n)) else Num(n);
    assert ValueOk(s, f.kind, v);
    if f.repeated then Many([v]) else One(v)
  }

  /** A message with nothing set but one 64-bit integer, at some depth. */
  function WideMessage(s: Schema, ty: nat, n: int): (m: Msg)
    requires WfSchema(s) && Comparable(s, ty) && Wide(s, ty) && 0 <= n <= TWO32
    ensures WellTyped(s, ty, m)
    decreases ty, 1
  {
    WideHasField(s, ty);
    var i := FirstWide(s, ty, 0);
    assert WfDescriptor(|s|, s[ty]) && WfField(|s|, s[ty][i]) && ComparableField(s, ty, s[ty][i]);
    var e := Empty(s, ty);
    Msg(e.slots[i := WideSlot(s, ty, s[ty][i], n)])
  }

  lemma {:induction false} SameIsCongruent(s: Schema, ty: nat, a: Msg, i: nat)
    requires WfSchema(s) && Comparable(s, ty) && WellTyped(s, ty, a) && i <= |s[ty]|
    ensures CongruentFrom(s, ty, a, a, i) && SameFrom(s, ty, a, a, i)
    decreases ty, 1 + |s[ty]| - i
  {
    if i < |s[ty]| {
      var f := s[ty][i];
      assert WfDescriptor(|s|, s[ty]) && WfField(|s|, f) && ComparableField(s, ty, f);
      assert SlotOk(s, f, a.slots[i]);
      if f.repeated {
        assert forall j :: 0 <= j < |a.slots[i].vs| ==> ValueOk(s, f.kind, a.slots[i].vs[j]);
      } else if f.kind.Message? {
        SameIsCongruent(s, f.kind.index, Read(s, f, a.slots[i]).m, 0);
      }
      SameIsCongruent(s, ty, a, i + 1);
    }
  }

  lemma {:induction false} WideSlotsCongruent(s: Schema, ty: nat, f: Field)
    requires WfSchema(s) && WfField(|s|, f) && ComparableField(s, ty, f)
    requires IsWide(f.kind) || (f.kind.Message? && Wide(s, f.kind.index))
    ensures var x, y := WideSlot(s, ty, f, 0), WideSlot(s, ty, f, TWO32);
            CongruentSlots(s, ty, f, x, y) && !SameSlots(s, ty, f, x, y)
    decreases ty, 0
  {
    if f.kind.Message? {
      WideCongruent(s, f.kind.index, 0);
    }
  }

  /** Two messages that differ in one 64-bit integer by 2^32. */
  lemma {:induction false} WideCongruent(s: Schema, ty: nat, i: nat)
    requires WfSchema(s) && Comparable(s, ty) && Wide(s, ty) && i <= |s[ty]|
    ensures var a, b := WideMessage(s, ty, 0), WideMessage(s, ty, TWO32);
            CongruentFrom(s, ty, a, b, i) && (i <= FirstWide(s, ty, 0) ==> !SameFrom(s, ty, a, b, i))
    decreases ty, 1 + |s[ty]| - i
  {
    if i < |s[ty]| {
      var a, b := WideMessage(s, ty, 0), WideMessage(s, ty, TWO32);
      var f := s[ty][i];
      assert WfDescriptor(|s|, s[ty]) && WfField(|s|, f) && ComparableField(s, ty, f);
      assert SlotOk(s, f, a.slots[i]) && SlotOk(s, f, b.slots[i]);
      WideCongruent(s, ty, i + 1);
      if i == FirstWide(s, ty, 0) {
        WideSlotsCongruent(s, ty, f);
      } else {
        assert a.slots[i] == b.slots[i];
        SameIsCongruent(s, ty, a, i);
      }
    }
  }

  // ---- for which types equality is right ----

  /** `equals_to` finds two messages equal exactly when they read the same. */
  ghost predicate EqualsIsRight(s: Schema, ty: nat)
    requires WfSchema(s) && Comparable(s, ty)
  {
    forall a, b :: WellTyped(s, ty, a) && WellTyped(s, ty, b) ==>
      (CompareMessages(s, ty, Some(a), Some(b)) == 0 <==> SameFrom(s, ty, a, b, 0))
  }

  /** It does so for all messages of a type exactly if the type has no 64-bit integer at any depth. */
  lemma {:induction false} EqualsIsRightIffNarrow(s: Schema, ty: nat)
    requires WfSchema(s) && Comparable(s, ty)
    ensures EqualsIsRight(s, ty) <==> !Wide(s, ty)
  {
    if Wide(s, ty) {
      var a, b := WideMessage(s, ty, 0), WideMessage(s, ty, TWO32);
      WideCongruent(s, ty, 0);
      ZeroIsCongruent(s, ty, a, b, 0);
      assert CompareMessages(s, ty, Some(a), Some(b)) == 0 && !SameFrom(s, ty, a, b, 0);
    } else {
      forall a, b | WellTyped(s, ty, a) && WellTyped(s, ty, b)
        ensures CompareMessages(s, ty, Some(a), Some(b)) == 0 <==> SameFrom(s, ty, a, b, 0)
      {
        ZeroIsCongruent(s, ty, a, b, 0);
        NarrowIsSame(s, ty, a, b, 0);
      }
    }
  }
}
