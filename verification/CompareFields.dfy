/**
 What decides a comparison: the first field that differs, by the order of its own values. The
 orders are spelled out for each kind of field.
 */
module CompareFields {
  import opened Options
  import opened Schema
  import opened Sequences
  import opened Strings
  import opened Compare
  import opened Lexical
  import opened CompareOrder
  import opened CompareTypes

  // ---- the orders of the values ----

  /** The value of an enum that a number stands for: the first one declared with it. */
  ghost predicate Declares(values: seq<EnumValue>, i: nat, number: int) {
    i < |values| && values[i].number == number && forall j :: 0 <= j < i ==> values[j].number != number
  }

  /**
   x comes before y. Enum values are ordered by their numbers, in a repeated field by the order
   of their declarations.
   */
  ghost predicate ValueBefore(k: Kind, repeated: bool, x: Value, y: Value)
    requires ScalarOk(k, x) && ScalarOk(k, y)
  {
    match k
    case String => Before(x.s, y.s)
    case Double => x.r < y.r
    case Float => x.r < y.r
    case Bool => !x.b && y.b
    case Enum(values) =>
      if repeated then exists i: nat, j: nat :: i < j && Declares(values, i, x.n) && Declares(values, j, y.n)
      else x.n < y.n
    case _ => x.n < y.n
  }

  /** Numbers of the field less than 2^31 apart; positions in an enum always are. */
  predicate InWindow(k: Kind, repeated: bool, x: Value, y: Value)
    requires ScalarOk(k, x) && ScalarOk(k, y)
  {
    x.Num? && !(k.Enum? && repeated) ==> -0x8000_0000 < x.n - y.n < 0x8000_0000
  }

  /** The result for two values of a scalar field. */
  ghost predicate ScalarResult(k: Kind, repeated: bool, x: Value, y: Value, c: int)
    requires ScalarOk(k, x) && ScalarOk(k, y)
  {
    && (c < 0 <==> ValueBefore(k, repeated, x, y))
    && (c > 0 <==> ValueBefore(k, repeated, y, x))
    && (k.Double? || k.Float? ==> c == 0 || c == (if repeated then 1 else 2) || c == (if repeated then -1 else -2))
    && (k.Bool? ==> c == (if x.b then 1 else 0) - (if y.b then 1 else 0))
    && (x.Num? && !(k.Enum? && repeated) ==> c == x.n - y.n)
    && (k.Enum? && repeated ==>
          exists i: nat, j: nat :: Declares(k.values, i, x.n) && Declares(k.values, j, y.n) && c == i - j)
  }

  lemma {:induction false} EnumPositions(values: seq<EnumValue>, x: int, y: int)
    requires FindByNumber(values, x) < |values| && FindByNumber(values, y) < |values|
    ensures FindByNumber(values, x) < FindByNumber(values, y)
       <==> exists i: nat, j: nat :: i < j && Declares(values, i, x) && Declares(values, j, y)
  {
    var i, j := FindByNumber(values, x), FindByNumber(values, y);
    assert Declares(values, i, x) && Declares(values, j, y);
    assert forall l: nat :: Declares(values, l, x) ==> l == i;
    assert forall l: nat :: Declares(values, l, y) ==> l == j;
  }

  lemma {:induction false} PositionOrder(types: nat, values: seq<EnumValue>, x: Value, y: Value)
    requires WfKind(types, Enum(values)) && ScalarOk(Enum(values), x) && ScalarOk(Enum(values), y)
    ensures ScalarResult(Enum(values), true, x, y, CompareScalar(Enum(values), true, x, y))
  {
    var i: nat, j: nat := FindByNumber(values, x.n), FindByNumber(values, y.n);
    EnumPositions(values, x.n, y.n);
    EnumPositions(values, y.n, x.n);
    NarrowNear(i as int - j);
    assert Declares(values, i, x.n) && Declares(values, j, y.n);
  }

  lemma {:induction false} ScalarOrder(types: nat, k: Kind, repeated: bool, x: Value, y: Value)
    requires WfKind(types, k) && ScalarOk(k, x) && ScalarOk(k, y) && InWindow(k, repeated, x, y)
    ensures ScalarResult(k, repeated, x, y, CompareScalar(k, repeated, x, y))
  {
    if k.String? {
      StringOrder(x.s, y.s);
    } else if k.Bool? {
      NarrowNear(BoolInt(x.b) - BoolInt(y.b));
    } else if k.Enum? && repeated {
      PositionOrder(types, k.values, x, y);
    } else if x.Num? {
      NarrowNear(x.n - y.n);
    }
  }

  // ---- the first field that differs ----

  /** The comparison of field i. */
  function FieldComparison(s: Schema, ty: nat, a: Msg, b: Msg, i: nat): int
    requires WfSchema(s) && Comparable(s, ty) && WellTyped(s, ty, a) && WellTyped(s, ty, b) && i < |s[ty]|
  {
    assert WfDescriptor(|s|, s[ty]) && WfField(|s|, s[ty][i]) && ComparableField(s, ty, s[ty][i]);
    assert SlotOk(s, s[ty][i], a.slots[i]) && SlotOk(s, s[ty][i], b.slots[i]);
    CompareSlots(s, ty, s[ty][i], a.slots[i], b.slots[i])
  }

  lemma {:induction false} SkipEqualFields(s: Schema, ty: nat, flags: seq<bool>, a: Msg, b: Msg, i: nat, j: nat)
    requires WfSchema(s) && Comparable(s, ty) && WellTyped(s, ty, a) && WellTyped(s, ty, b) && j <= i <= |s[ty]|
    requires forall l :: j <= l < i ==> FieldComparison(s, ty, a, b, l) == 0
    ensures CompareFrom(s, ty, a, b, j) == CompareFrom(s, ty, a, b, i)
    ensures OrderlessFrom(s, ty, flags, a, b, j) == OrderlessFrom(s, ty, flags, a, b, i)
    decreases i - j
  {
    if j < i {
      assert FieldComparison(s, ty, a, b, j) == 0;
      SkipEqualFields(s, ty, flags, a, b, i, j + 1);
    }
  }

  /**
   The first field that does not compare as equal decides: `compare` gives its comparison, and
   `orderless` follows the sign or, if the flag of that very field is set, the opposite sign. The
   one exception is -2^31, which has no opposite in 32 bits.
   */
  lemma {:induction false} FirstFieldDecides(s: Schema, ty: nat, flags: seq<bool>, a: Msg, b: Msg, i: nat)
    requires WfSchema(s) && Comparable(s, ty) && WellTyped(s, ty, a) && WellTyped(s, ty, b) && i < |s[ty]|
    requires forall l :: 0 <= l < i ==> FieldComparison(s, ty, a, b, l) == 0
    requires FieldComparison(s, ty, a, b, i) != 0
    ensures var c := FieldComparison(s, ty, a, b, i);
            && CompareMessages(s, ty, Some(a), Some(b)) == c
            && (Orderless(s, ty, flags, Some(a), Some(b))
                <==> if i < |flags| && flags[i] then c > 0 || c == -0x8000_0000 else c < 0)
  {
    SkipEqualFields(s, ty, flags, a, b, i, 0);
    var c := FieldComparison(s, ty, a, b, i);
    FieldInRange(s, ty, a, b, i);
    if c != -0x8000_0000 {
      NarrowNear(-c);
    }
  }

  lemma {:induction false} WrapInRange(xs: seq<Atom>, ys: seq<Atom>)
    ensures -0x8000_0000 <= WrapCompare(xs, ys) < 0x8000_0000
  {
    if xs != [] && ys != [] {
      WrapInRange(xs[1..], ys[1..]);
    }
  }

  lemma {:induction false} FieldInRange(s: Schema, ty: nat, a: Msg, b: Msg, i: nat)
    requires WfSchema(s) && Comparable(s, ty) && WellTyped(s, ty, a) && WellTyped(s, ty, b) && i < |s[ty]|
    ensures -0x8000_0000 <= FieldComparison(s, ty, a, b, i) < 0x8000_0000
  {
    var f := s[ty][i];
    assert WfDescriptor(|s|, s[ty]) && WfField(|s|, f) && ComparableField(s, ty, f);
    assert SlotOk(s, f, a.slots[i]) && SlotOk(s, f, b.slots[i]);
    SlotsByKey(s, ty, f, a.slots[i], b.slots[i]);
    WrapInRange(SlotKey(s, ty, f, a.slots[i]), SlotKey(s, ty, f, b.slots[i]));
  }

  /** If no field decides, the messages are equal to `compare`, and `orderless` puts neither first. */
  lemma {:induction false} NoFieldDecides(s: Schema, ty: nat, flags: seq<bool>, a: Msg, b: Msg)
    requires WfSchema(s) && Comparable(s, ty) && WellTyped(s, ty, a) && WellTyped(s, ty, b)
    requires forall l :: 0 <= l < |s[ty]| ==> FieldComparison(s, ty, a, b, l) == 0
    ensures CompareMessages(s, ty, Some(a), Some(b)) == 0
    ensures !Orderless(s, ty, flags, Some(a), Some(b))
  {
    SkipEqualFields(s, ty, flags, a, b, |s[ty]|, 0);
  }

  // ---- by the values of that field ----

  /** A singular scalar field reads v: it is set to v, or unset with v as its declared default. */
  predicate Reads(f: Field, slot: Slot, v: Value) {
    slot == One(v) || (slot == Unset && f.default == v)
  }

  /** The decision of `compare` and `orderless` for messages that agree before field i. */
  ghost predicate Decides(s: Schema, ty: nat, flags: seq<bool>, a: Msg, b: Msg, i: nat, before: bool, after: bool)
    requires WfSchema(s) && Comparable(s, ty) && WellTyped(s, ty, a) && WellTyped(s, ty, b) && i < |s[ty]|
  {
    var c := CompareMessages(s, ty, Some(a), Some(b));
    var descending := i < |flags| && flags[i];
    && (before || after ==> (c < 0 <==> before) && (c > 0 <==> after))
    && (before || after ==> (Orderless(s, ty, flags, Some(a), Some(b)) <==> if descending then after else before))
  }

  lemma {:induction false} EqualBefore(s: Schema, ty: nat, a: Msg, b: Msg, i: nat)
    requires WfSchema(s) && Comparable(s, ty) && WellTyped(s, ty, a) && WellTyped(s, ty, b) && i < |s[ty]|
    requires a.slots[..i] == b.slots[..i]
    ensures forall l :: 0 <= l < i ==> FieldComparison(s, ty, a, b, l) == 0
  {
    forall l | 0 <= l < i ensures FieldComparison(s, ty, a, b, l) == 0 {
      assert WfDescriptor(|s|, s[ty]) && WfField(|s|, s[ty][l]) && ComparableField(s, ty, s[ty][l]);
      assert SlotOk(s, s[ty][l], a.slots[l]);
      assert a.slots[l] == a.slots[..i][l] == b.slots[..i][l] == b.slots[l];
      SlotsSame(s, ty, s[ty][l], a.slots[l]);
    }
  }

  /**
   Messages that agree before a singular scalar field are ordered by its two values, set or
   default, and by `orderless` in the opposite order if the field is flagged.
   */
  lemma {:induction false} ScalarFieldDecides(
      s: Schema, ty: nat, flags: seq<bool>, a: Msg, b: Msg, i: nat, x: Value, y: Value)
    requires WfSchema(s) && Comparable(s, ty) && WellTyped(s, ty, a) && WellTyped(s, ty, b) && i < |s[ty]|
    requires a.slots[..i] == b.slots[..i]
    requires var f := s[ty][i]; !f.repeated && !f.kind.Message? && Reads(f, a.slots[i], x) && Reads(f, b.slots[i], y)
    requires ScalarOk(s[ty][i].kind, x) && ScalarOk(s[ty][i].kind, y) && InWindow(s[ty][i].kind, false, x, y)
    ensures var k := s[ty][i].kind;
            && ScalarResult(k, false, x, y, FieldComparison(s, ty, a, b, i))
            && Decides(s, ty, flags, a, b, i, ValueBefore(k, false, x, y), ValueBefore(k, false, y, x))
  {
    var f := s[ty][i];
    assert WfDescriptor(|s|, s[ty]) && WfField(|s|, f) && ComparableField(s, ty, f);
    assert SlotOk(s, f, a.slots[i]) && SlotOk(s, f, b.slots[i]);
    ScalarOrder(|s|, f.kind, false, x, y);
    EqualBefore(s, ty, a, b, i);
    if FieldComparison(s, ty, a, b, i) != 0 {
      FirstFieldDecides(s, ty, flags, a, b, i);
    }
  }

  /** The elements before the first difference are the same: one list ends there, or it has the smaller value there. */
  ghost predicate ListBefore(k: Kind, xs: seq<Value>, ys: seq<Value>)
    requires forall p :: 0 <= p < |xs| ==> ScalarOk(k, xs[p])
    requires forall p :: 0 <= p < |ys| ==> ScalarOk(k, ys[p])
  {
    xs < ys || exists p :: 0 <= p < |xs| && p < |ys| && xs[..p] == ys[..p] && ValueBefore(k, true, xs[p], ys[p])
  }

  /** Up to their first difference the lists hold numbers in the window. */
  predicate ListsInWindow(k: Kind, xs: seq<Value>, ys: seq<Value>)
    requires forall p :: 0 <= p < |xs| ==> ScalarOk(k, xs[p])
    requires forall p :: 0 <= p < |ys| ==> ScalarOk(k, ys[p])
  {
    forall p :: 0 <= p < |xs| && p < |ys| && xs[..p] == ys[..p] ==> InWindow(k, true, xs[p], ys[p])
  }

  lemma {:induction false} SameValue(k: Kind, x: Value)
    requires ScalarOk(k, x)
    ensures !ValueBefore(k, true, x, x)
  {
    if k.String? {
      StringLaws(x.s, x.s, x.s);
      StringOrder(x.s, x.s);
    }
  }

  lemma {:induction false} BeforeInTails(k: Kind, xs: seq<Value>, ys: seq<Value>, p: nat)
    requires forall q :: 0 <= q < |xs| ==> ScalarOk(k, xs[q])
    requires forall q :: 0 <= q < |ys| ==> ScalarOk(k, ys[q])
    requires 0 < p < |xs| && p < |ys| && xs[..p] == ys[..p] && ValueBefore(k, true, xs[p], ys[p])
    ensures ListBefore(k, xs[1..], ys[1..])
  {
    var u, v := xs[1..], ys[1..];
    assert xs[..p][1..] == u[..p - 1] && ys[..p][1..] == v[..p - 1];
    assert u[p - 1] == xs[p] && v[p - 1] == ys[p];
  }

  lemma {:induction false} BeforeFromTails(k: Kind, xs: seq<Value>, ys: seq<Value>, p: nat)
    requires forall q :: 0 <= q < |xs| ==> ScalarOk(k, xs[q])
    requires forall q :: 0 <= q < |ys| ==> ScalarOk(k, ys[q])
    requires p + 1 < |xs| && p + 1 < |ys| && xs[0] == ys[0]
    requires xs[1..][..p] == ys[1..][..p] && ValueBefore(k, true, xs[p + 1], ys[p + 1])
    ensures ListBefore(k, xs, ys)
  {
    assert xs[..p + 1] == [xs[0]] + xs[1..][..p] && ys[..p + 1] == [ys[0]] + ys[1..][..p];
  }

  lemma {:induction false} ListInTails(k: Kind, xs: seq<Value>, ys: seq<Value>)
    requires forall p :: 0 <= p < |xs| ==> ScalarOk(k, xs[p])
    requires forall p :: 0 <= p < |ys| ==> ScalarOk(k, ys[p])
    requires xs != [] && ys != [] && xs[0] == ys[0] && ListBefore(k, xs, ys)
    ensures ListBefore(k, xs[1..], ys[1..])
  {
    if xs < ys {
      assert xs[1..] < ys[1..];
    } else {
      var p :| 0 <= p < |xs| && p < |ys| && xs[..p] == ys[..p] && ValueBefore(k, true, xs[p], ys[p]);
      SameValue(k, xs[0]);
      BeforeInTails(k, xs, ys, p);
    }
  }

  lemma {:induction false} ListFromTails(k: Kind, xs: seq<Value>, ys: seq<Value>)
    requires forall p :: 0 <= p < |xs| ==> ScalarOk(k, xs[p])
    requires forall p :: 0 <= p < |ys| ==> ScalarOk(k, ys[p])
    requires xs != [] && ys != [] && xs[0] == ys[0] && ListBefore(k, xs[1..], ys[1..])
    ensures ListBefore(k, xs, ys)
  {
    var u, v := xs[1..], ys[1..];
    if u < v {
      assert xs == [xs[0]] + u && ys == [ys[0]] + v;
    } else {
      var p :| 0 <= p < |u| && p < |v| && u[..p] == v[..p] && ValueBefore(k, true, u[p], v[p]);
      BeforeFromTails(k, xs, ys, p);
    }
  }

  lemma {:induction false} TailsBefore(k: Kind, xs: seq<Value>, ys: seq<Value>)
    requires forall p :: 0 <= p < |xs| ==> ScalarOk(k, xs[p])
    requires forall p :: 0 <= p < |ys| ==> ScalarOk(k, ys[p])
    requires xs != [] && ys != [] && xs[0] == ys[0]
    ensures ListBefore(k, xs, ys) <==> ListBefore(k, xs[1..], ys[1..])
  {
    if ListBefore(k, xs, ys) {
      ListInTails(k, xs, ys);
    }
    if ListBefore(k, xs[1..], ys[1..]) {
      ListFromTails(k, xs, ys);
    }
  }

  lemma {:induction false} WindowTails(k: Kind, xs: seq<Value>, ys: seq<Value>)
    requires forall p :: 0 <= p < |xs| ==> ScalarOk(k, xs[p])
    requires forall p :: 0 <= p < |ys| ==> ScalarOk(k, ys[p])
    requires xs != [] && ys != [] && xs[0] == ys[0] && ListsInWindow(k, xs, ys)
    ensures ListsInWindow(k, xs[1..], ys[1..])
  {
    var u, v := xs[1..], ys[1..];
    forall p | 0 <= p < |u| && p < |v| && u[..p] == v[..p] ensures InWindow(k, true, u[p], v[p]) {
      assert xs[..p + 1] == [xs[0]] + u[..p] && ys[..p + 1] == [ys[0]] + v[..p];
      assert InWindow(k, true, xs[p + 1], ys[p + 1]);
    }
  }

  lemma {:induction false} ListHeads(k: Kind, xs: seq<Value>, ys: seq<Value>)
    requires forall p :: 0 <= p < |xs| ==> ScalarOk(k, xs[p])
    requires forall p :: 0 <= p < |ys| ==> ScalarOk(k, ys[p])
    requires xs != [] && ys != [] && xs[0] != ys[0]
    ensures ListBefore(k, xs, ys) <==> ValueBefore(k, true, xs[0], ys[0])
  {
    assert xs[..0] == ys[..0];
    if p :| 0 <= p < |xs| && p < |ys| && xs[..p] == ys[..p] && ValueBefore(k, true, xs[p], ys[p]) {
      if p > 0 {
        SameHead(xs, ys, p);
      }
    }
  }

  /** Different values of a kind, in the window, compare as different. */
  lemma {:induction false} DifferentValues(types: nat, k: Kind, x: Value, y: Value)
    requires WfKind(types, k) && ScalarOk(k, x) && ScalarOk(k, y) && InWindow(k, true, x, y)
    ensures CompareScalar(k, true, x, y) == 0 <==> x == y
  {
    if k.String? {
      StringLaws(x.s, y.s, x.s);
    } else if k.Bool? {
      NarrowNear(BoolInt(x.b) - BoolInt(y.b));
    } else if k.Enum? {
      var i: int, j: int := FindByNumber(k.values, x.n), FindByNumber(k.values, y.n);
      NarrowNear(i - j);
      assert k.values[i].number == x.n && k.values[j].number == y.n;
    } else if x.Num? {
      NarrowNear(x.n - y.n);
    }
  }

  /** Lists are ordered by their first difference, a list that ends first coming first. */
  lemma {:induction false} ListOrder(types: nat, k: Kind, xs: seq<Value>, ys: seq<Value>)
    requires WfKind(types, k)
    requires forall p :: 0 <= p < |xs| ==> ScalarOk(k, xs[p])
    requires forall p :: 0 <= p < |ys| ==> ScalarOk(k, ys[p])
    requires ListsInWindow(k, xs, ys)
    ensures CompareLists(k, xs, ys) < 0 <==> ListBefore(k, xs, ys)
    ensures CompareLists(k, xs, ys) > 0 <==> ListBefore(k, ys, xs)
    ensures xs < ys ==> CompareLists(k, xs, ys) == -1
    ensures ys < xs ==> CompareLists(k, xs, ys) == 1
  {
    if xs != [] && ys != [] {
      assert xs[..0] == ys[..0];
      assert InWindow(k, true, xs[0], ys[0]);
      ScalarOrder(types, k, true, xs[0], ys[0]);
      DifferentValues(types, k, xs[0], ys[0]);
      if xs[0] == ys[0] {
        TailsBefore(k, xs, ys);
        TailsBefore(k, ys, xs);
        WindowTails(k, xs, ys);
        ListOrder(types, k, xs[1..], ys[1..]);
      } else {
        ListHeads(k, xs, ys);
        ListHeads(k, ys, xs);
      }
    }
  }

  /** Messages that agree before a repeated scalar field are ordered by its two lists. */
  lemma {:induction false} ListFieldDecides(s: Schema, ty: nat, flags: seq<bool>, a: Msg, b: Msg, i: nat)
    requires WfSchema(s) && Comparable(s, ty) && WellTyped(s, ty, a) && WellTyped(s, ty, b) && i < |s[ty]|
    requires a.slots[..i] == b.slots[..i] && s[ty][i].repeated
    requires SlotOk(s, s[ty][i], a.slots[i]) && SlotOk(s, s[ty][i], b.slots[i]) && !s[ty][i].kind.Message?
    requires forall p :: 0 <= p < |a.slots[i].vs| ==> ScalarOk(s[ty][i].kind, a.slots[i].vs[p])
    requires forall p :: 0 <= p < |b.slots[i].vs| ==> ScalarOk(s[ty][i].kind, b.slots[i].vs[p])
    requires ListsInWindow(s[ty][i].kind, a.slots[i].vs, b.slots[i].vs)
    ensures var k, xs, ys := s[ty][i].kind, a.slots[i].vs, b.slots[i].vs;
            && Decides(s, ty, flags, a, b, i, ListBefore(k, xs, ys), ListBefore(k, ys, xs))
            && (xs < ys ==> CompareMessages(s, ty, Some(a), Some(b)) == -1)
            && (ys < xs ==> CompareMessages(s, ty, Some(a), Some(b)) == 1)
  {
    var f := s[ty][i];
    assert WfDescriptor(|s|, s[ty]) && WfField(|s|, f) && ComparableField(s, ty, f);
    ListOrder(|s|, f.kind, a.slots[i].vs, b.slots[i].vs);
    ListsNotMinimal(|s|, f.kind, a.slots[i].vs, b.slots[i].vs);
    EqualBefore(s, ty, a, b, i);
    if FieldComparison(s, ty, a, b, i) != 0 {
      FirstFieldDecides(s, ty, flags, a, b, i);
    }
  }

  /** In the window no result is -2^31. */
  lemma {:induction false} ListsNotMinimal(types: nat, k: Kind, xs: seq<Value>, ys: seq<Value>)
    requires WfKind(types, k)
    requires forall p :: 0 <= p < |xs| ==> ScalarOk(k, xs[p])
    requires forall p :: 0 <= p < |ys| ==> ScalarOk(k, ys[p])
    requires ListsInWindow(k, xs, ys)
    ensures CompareLists(k, xs, ys) > -0x8000_0000
  {
    if xs != [] && ys != [] {
      assert xs[..0] == ys[..0];
      assert InWindow(k, true, xs[0], ys[0]);
      DifferentValues(types, k, xs[0], ys[0]);
      if k.Enum? {
        NarrowNear(FindByNumber(k.values, xs[0].n) - FindByNumber(k.values, ys[0].n));
      } else if xs[0].Num? {
        NarrowNear(xs[0].n - ys[0].n);
      }
      if xs[0] == ys[0] {
        WindowTails(k, xs, ys);
        ListsNotMinimal(types, k, xs[1..], ys[1..]);
      }
    }
  }

  /** A singular message field reads m: it is set to m, or unset while m has nothing set. */
  predicate ReadsMessage(slot: Slot, m: Msg) {
    slot == One(Sub(m)) || (slot == Unset && forall j :: 0 <= j < |m.slots| ==> m.slots[j] in [Unset, Many([])])
  }

  /** Messages that agree before a message field compare as the two sub-messages do, if these differ. */
  lemma {:induction false} MessageFieldDecides(s: Schema, ty: nat, flags: seq<bool>, a: Msg, b: Msg, i: nat, x: Msg, y: Msg)
    requires WfSchema(s) && Comparable(s, ty) && WellTyped(s, ty, a) && WellTyped(s, ty, b) && i < |s[ty]|
    requires a.slots[..i] == b.slots[..i] && s[ty][i].kind.Message?
    requires ComparableField(s, ty, s[ty][i])
    requires var t := s[ty][i].kind.index; WellTyped(s, t, x) && WellTyped(s, t, y)
    requires ReadsMessage(a.slots[i], x) && ReadsMessage(b.slots[i], y)
    requires CompareMessages(s, s[ty][i].kind.index, Some(x), Some(y)) != 0
    ensures CompareMessages(s, ty, Some(a), Some(b)) == CompareMessages(s, s[ty][i].kind.index, Some(x), Some(y))
  {
    var f := s[ty][i];
    assert WfDescriptor(|s|, s[ty]) && WfField(|s|, f);
    assert SlotOk(s, f, a.slots[i]) && SlotOk(s, f, b.slots[i]);
    ReadMessage(s, f, a.slots[i], x);
    ReadMessage(s, f, b.slots[i], y);
    EqualBefore(s, ty, a, b, i);
    FirstFieldDecides(s, ty, flags, a, b, i);
  }

  lemma {:induction false} ReadMessage(s: Schema, f: Field, slot: Slot, m: Msg)
    requires WfField(|s|, f) && SlotOk(s, f, slot) && !f.repeated && f.kind.Message?
    requires WellTyped(s, f.kind.index, m) && ReadsMessage(slot, m)
    ensures Read(s, f, slot) == Sub(m)
  {
    if slot.Unset? {
      var e := Empty(s, f.kind.index);
      forall j | 0 <= j < |m.slots| ensures m.slots[j] == e.slots[j] {
        assert SlotOk(s, s[f.kind.index][j], m.slots[j]);
        assert m.slots[j] in [Unset, Many([])];
      }
      assert m.slots == e.slots;
    }
  }
}
