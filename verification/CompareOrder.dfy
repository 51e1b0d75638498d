/**
 Comparing two messages is comparing their flattened field values one by one with narrowed
 subtractions. Where the first values that differ are told apart, that is the lexicographic
 order of the flattened values.
 */
module CompareOrder {
  import opened Options
  import opened Schema
  import opened Compare
  import opened Lexical

  // ---- flattened values ----

  function AtomOf(k: Kind, repeated: bool, v: Value): Atom
    requires ScalarOk(k, v)
  {
    match k
    case String => TextAtom(v.s)
    case Double => RealAtom(v.r)
    case Float => RealAtom(v.r)
    case Bool => IntAtom(BoolInt(v.b))
    case Enum(values) => IntAtom(if repeated then FindByNumber(values, v.n) else v.n)
    case _ => IntAtom(v.n)
  }

  function ListKey(k: Kind, vs: seq<Value>): seq<Atom>
    requires forall i :: 0 <= i < |vs| ==> ScalarOk(k, vs[i])
  {
    if vs == [] then [End] else [AtomOf(k, true, vs[0])] + ListKey(k, vs[1..])
  }

  function SlotKey(s: Schema, ty: nat, f: Field, slot: Slot): seq<Atom>
    requires WfSchema(s) && WfField(|s|, f) && ComparableField(s, ty, f) && SlotOk(s, f, slot)
    decreases ty, 0
  {
    if f.repeated then
      assert forall i :: 0 <= i < |slot.vs| ==> ValueOk(s, f.kind, slot.vs[i]);
      ListKey(f.kind, slot.vs)
    else if f.kind.Message? then KeyFrom(s, f.kind.index, Read(s, f, slot).m, 0)
    else [AtomOf(f.kind, false, Read(s, f, slot))]
  }

  /** The values of the fields from i on, in field order, sub-messages in place. */
  function KeyFrom(s: Schema, ty: nat, m: Msg, i: nat): seq<Atom>
    requires WfSchema(s) && Comparable(s, ty) && WellTyped(s, ty, m) && i <= |s[ty]|
    decreases ty, 1 + |s[ty]| - i
  {
    if i == |s[ty]| then [] else
      assert WfDescriptor(|s|, s[ty]) && WfField(|s|, s[ty][i]) && ComparableField(s, ty, s[ty][i]);
      SlotKey(s, ty, s[ty][i], m.slots[i]) + KeyFrom(s, ty, m, i + 1)
  }

  /** One column for each field. */
  function Columns(s: Schema, ty: nat, m: Msg): (cs: seq<Column>)
    requires WfSchema(s) && Comparable(s, ty) && WellTyped(s, ty, m)
    ensures |cs| == |s[ty]|
  {
    assert WfDescriptor(|s|, s[ty]);
    assert forall i :: 0 <= i < |s[ty]| ==> WfField(|s|, s[ty][i]) && ComparableField(s, ty, s[ty][i]);
    assert forall i :: 0 <= i < |s[ty]| ==> SlotOk(s, s[ty][i], m.slots[i]);
    seq(|s[ty]|, i requires 0 <= i < |s[ty]| => SlotKey(s, ty, s[ty][i], m.slots[i]))
  }

  // ---- comparing is comparing keys ----

  /** The same result, up to the size of the fixed results for strings and reals. */
  predicate Matches(c: int, w: int) {
    c == w || (Sign(c) == Sign(w) && -2 <= c <= 2)
  }

  lemma {:induction false} ScalarByKey(k: Kind, repeated: bool, a: Value, b: Value)
    requires ScalarOk(k, a) && ScalarOk(k, b)
    ensures Matches(CompareScalar(k, repeated, a, b), AtomWrap(AtomOf(k, repeated, a), AtomOf(k, repeated, b)))
  {
  }

  lemma {:induction false} ListsByKey(k: Kind, xs: seq<Value>, ys: seq<Value>)
    requires forall i :: 0 <= i < |xs| ==> ScalarOk(k, xs[i])
    requires forall i :: 0 <= i < |ys| ==> ScalarOk(k, ys[i])
    ensures Matches(CompareLists(k, xs, ys), WrapCompare(ListKey(k, xs), ListKey(k, ys)))
    ensures Aligned(ListKey(k, xs), ListKey(k, ys))
  {
    var x, y := ListKey(k, xs), ListKey(k, ys);
    if xs != [] && ys != [] {
      ScalarByKey(k, true, xs[0], ys[0]);
      ListsByKey(k, xs[1..], ys[1..]);
      assert x[1..] == ListKey(k, xs[1..]) && y[1..] == ListKey(k, ys[1..]);
    }
  }

  lemma {:induction false} SlotsByKey(s: Schema, ty: nat, f: Field, x: Slot, y: Slot)
    requires WfSchema(s) && WfField(|s|, f) && ComparableField(s, ty, f) && SlotOk(s, f, x) && SlotOk(s, f, y)
    ensures Matches(CompareSlots(s, ty, f, x, y), WrapCompare(SlotKey(s, ty, f, x), SlotKey(s, ty, f, y)))
    ensures Aligned(SlotKey(s, ty, f, x), SlotKey(s, ty, f, y))
    decreases ty, 0
  {
    if f.repeated {
      assert forall i :: 0 <= i < |x.vs| ==> ValueOk(s, f.kind, x.vs[i]);
      assert forall i :: 0 <= i < |y.vs| ==> ValueOk(s, f.kind, y.vs[i]);
      ListsByKey(f.kind, x.vs, y.vs);
    } else if f.kind.Message? {
      MessagesByKey(s, f.kind.index, Read(s, f, x).m, Read(s, f, y).m, 0);
    } else {
      ScalarByKey(f.kind, false, Read(s, f, x), Read(s, f, y));
    }
  }

  /**
   For any integers, the comparison loop compares the flattened values one by one, and no
   flattened message ends before another of the same type is seen to differ from it.
   */
  lemma {:induction false} MessagesByKey(s: Schema, ty: nat, a: Msg, b: Msg, i: nat)
    requires WfSchema(s) && Comparable(s, ty) && WellTyped(s, ty, a) && WellTyped(s, ty, b) && i <= |s[ty]|
    ensures Matches(CompareFrom(s, ty, a, b, i), WrapCompare(KeyFrom(s, ty, a, i), KeyFrom(s, ty, b, i)))
    ensures Aligned(KeyFrom(s, ty, a, i), KeyFrom(s, ty, b, i))
    decreases ty, 1 + |s[ty]| - i
  {
    if i < |s[ty]| {
      var f := s[ty][i];
      assert WfDescriptor(|s|, s[ty]) && WfField(|s|, f) && ComparableField(s, ty, f);
      assert SlotOk(s, f, a.slots[i]) && SlotOk(s, f, b.slots[i]);
      SlotsByKey(s, ty, f, a.slots[i], b.slots[i]);
      MessagesByKey(s, ty, a, b, i + 1);
      AlignedAppend(SlotKey(s, ty, f, a.slots[i]), KeyFrom(s, ty, a, i + 1),
                    SlotKey(s, ty, f, b.slots[i]), KeyFrom(s, ty, b, i + 1));
    }
  }

  predicate Typed(s: Schema, ty: nat, a: Option<Msg>) {
    WfSchema(s) && Comparable(s, ty) && (a.Some? ==> WellTyped(s, ty, a.value))
  }

  /** The first compared values of two messages that differ, at any depth. */
  function FirstDifference(s: Schema, ty: nat, a: Msg, b: Msg): Pair
    requires Typed(s, ty, Some(a)) && Typed(s, ty, Some(b))
  {
    FirstPair(KeyFrom(s, ty, a, 0), KeyFrom(s, ty, b, 0))
  }

  /** The first compared values that differ are told apart by the narrowed subtraction. */
  predicate ToldApart(s: Schema, ty: nat, a: Option<Msg>, b: Option<Msg>)
    requires Typed(s, ty, a) && Typed(s, ty, b)
  {
    a.Some? && b.Some? ==> Told(FirstDifference(s, ty, a.value, b.value))
  }

  /** Whatever the integers: `compare` gives the order of the first values that differ, unless it cannot see them differ. */
  lemma {:induction false} CompareByFirstDifference(s: Schema, ty: nat, a: Msg, b: Msg)
    requires Typed(s, ty, Some(a)) && Typed(s, ty, Some(b))
    ensures var p := FirstDifference(s, ty, a, b);
            && FirstDifference(s, ty, b, a) == Swap(p)
            && (p.None? <==> KeyFrom(s, ty, a, 0) == KeyFrom(s, ty, b, 0))
            && (p.None? ==> CompareMessages(s, ty, Some(a), Some(b)) == 0)
            && (p.Some? ==> p.value.0 != p.value.1)
            && (p.Some? ==> LexCompare(KeyFrom(s, ty, a, 0), KeyFrom(s, ty, b, 0))
                            == AtomCompare(p.value.0, p.value.1) != 0)
            && (p.Some? && !Hidden(p) ==>
                  Matches(CompareMessages(s, ty, Some(a), Some(b)), AtomWrap(p.value.0, p.value.1)))
  {
    var x, y := KeyFrom(s, ty, a, 0), KeyFrom(s, ty, b, 0);
    MessagesByKey(s, ty, a, b, 0);
    AlignedForked(x, y);
    FirstPairLaws(x, y);
    LexLaws(x, y, []);
  }

  /** The order of the flattened values is the order of the columns. */
  lemma {:induction false} KeysByColumns(s: Schema, ty: nat, a: Msg, b: Msg, i: nat)
    requires WfSchema(s) && Comparable(s, ty) && WellTyped(s, ty, a) && WellTyped(s, ty, b) && i <= |s[ty]|
    ensures LexCompare(KeyFrom(s, ty, a, i), KeyFrom(s, ty, b, i))
         == ColumnCompare([], Columns(s, ty, a), Columns(s, ty, b), i)
    decreases |s[ty]| - i
  {
    if i < |s[ty]| {
      var f := s[ty][i];
      assert WfDescriptor(|s|, s[ty]) && WfField(|s|, f) && ComparableField(s, ty, f);
      assert SlotOk(s, f, a.slots[i]) && SlotOk(s, f, b.slots[i]);
      KeysByColumns(s, ty, a, b, i + 1);
      SlotsByKey(s, ty, f, a.slots[i], b.slots[i]);
      AlignedForked(SlotKey(s, ty, f, a.slots[i]), SlotKey(s, ty, f, b.slots[i]));
      ForkedAppend(SlotKey(s, ty, f, a.slots[i]), KeyFrom(s, ty, a, i + 1),
                   SlotKey(s, ty, f, b.slots[i]), KeyFrom(s, ty, b, i + 1));
    }
  }

  /** The comparison of one field, when the first difference from it on is told apart. */
  lemma {:induction false} SlotsTold(s: Schema, ty: nat, f: Field, x: Slot, y: Slot, xs: seq<Atom>, ys: seq<Atom>)
    requires WfSchema(s) && WfField(|s|, f) && ComparableField(s, ty, f) && SlotOk(s, f, x) && SlotOk(s, f, y)
    requires Told(FirstPair(SlotKey(s, ty, f, x) + xs, SlotKey(s, ty, f, y) + ys))
    ensures var c := CompareSlots(s, ty, f, x, y);
            && Sign(c) == LexCompare(SlotKey(s, ty, f, x), SlotKey(s, ty, f, y))
            && -TWO31 < c < TWO31
            && (c == 0 ==> Told(FirstPair(xs, ys)))
  {
    var k, l := SlotKey(s, ty, f, x), SlotKey(s, ty, f, y);
    SlotsByKey(s, ty, f, x, y);
    AlignedForked(k, l);
    FirstPairAppend(k, xs, l, ys);
    FirstPairLaws(k, l);
    if FirstPair(k, l).Some? {
      ToldNotMinimal(FirstPair(k, l));
    } else {
      LexLaws(k, l, []);
    }
  }

  /** Where values are told apart, `orderless` is the lexicographic order of the columns with the flagged ones reversed. */
  lemma {:induction false} OrderlessByColumns(s: Schema, ty: nat, flags: seq<bool>, a: Msg, b: Msg, i: nat)
    requires WfSchema(s) && Comparable(s, ty) && WellTyped(s, ty, a) && WellTyped(s, ty, b) && i <= |s[ty]|
    requires Told(FirstPair(KeyFrom(s, ty, a, i), KeyFrom(s, ty, b, i)))
    ensures OrderlessFrom(s, ty, flags, a, b, i)
       <==> ColumnCompare(flags, Columns(s, ty, a), Columns(s, ty, b), i) < 0
    decreases |s[ty]| - i
  {
    if i < |s[ty]| {
      var f := s[ty][i];
      assert WfDescriptor(|s|, s[ty]) && WfField(|s|, f) && ComparableField(s, ty, f);
      assert SlotOk(s, f, a.slots[i]) && SlotOk(s, f, b.slots[i]);
      SlotsTold(s, ty, f, a.slots[i], b.slots[i], KeyFrom(s, ty, a, i + 1), KeyFrom(s, ty, b, i + 1));
      var c := CompareSlots(s, ty, f, a.slots[i], b.slots[i]);
      if c == 0 {
        OrderlessByColumns(s, ty, flags, a, b, i + 1);
      }
      NarrowNear(-c);
    }
  }

  // ---- the window ----

  predicate NearInt(a: int, b: int) {
    -TWO31 < a - b < TWO31
  }

  /** Compared integers are less than 2^31 apart. */
  predicate NearScalar(k: Kind, repeated: bool, a: Value, b: Value)
    requires ScalarOk(k, a) && ScalarOk(k, b)
  {
    var x, y := AtomOf(k, repeated, a), AtomOf(k, repeated, b);
    x.IntAtom? ==> NearInt(x.n, y.n)
  }

  predicate NearLists(k: Kind, xs: seq<Value>, ys: seq<Value>)
    requires forall i :: 0 <= i < |xs| ==> ScalarOk(k, xs[i])
    requires forall i :: 0 <= i < |ys| ==> ScalarOk(k, ys[i])
  {
    forall i :: 0 <= i < |xs| && i < |ys| ==> NearScalar(k, true, xs[i], ys[i])
  }

  predicate NearSlots(s: Schema, ty: nat, f: Field, x: Slot, y: Slot)
    requires WfSchema(s) && WfField(|s|, f) && ComparableField(s, ty, f) && SlotOk(s, f, x) && SlotOk(s, f, y)
    decreases ty, 0
  {
    if f.repeated then
      assert forall i :: 0 <= i < |x.vs| ==> ValueOk(s, f.kind, x.vs[i]);
      assert forall i :: 0 <= i < |y.vs| ==> ValueOk(s, f.kind, y.vs[i]);
      NearLists(f.kind, x.vs, y.vs)
    else if f.kind.Message? then NearFrom(s, f.kind.index, Read(s, f, x).m, Read(s, f, y).m, 0)
    else NearScalar(f.kind, false, Read(s, f, x), Read(s, f, y))
  }

  predicate NearFrom(s: Schema, ty: nat, a: Msg, b: Msg, i: nat)
    requires WfSchema(s) && Comparable(s, ty) && WellTyped(s, ty, a) && WellTyped(s, ty, b) && i <= |s[ty]|
    decreases ty, 1 + |s[ty]| - i
  {
    i < |s[ty]| ==>
      assert WfDescriptor(|s|, s[ty]) && WfField(|s|, s[ty][i]) && ComparableField(s, ty, s[ty][i]);
      NearSlots(s, ty, s[ty][i], a.slots[i], b.slots[i]) && NearFrom(s, ty, a, b, i + 1)
  }

  /** Every integer `compare` may subtract, at any depth, differs by less than 2^31. */
  predicate Near(s: Schema, ty: nat, a: Option<Msg>, b: Option<Msg>)
    requires Typed(s, ty, a) && Typed(s, ty, b)
  {
    a.Some? && b.Some? ==> NearFrom(s, ty, a.value, b.value, 0)
  }

  lemma {:induction false} NarrowNear(n: int)
    ensures -TWO31 <= n < TWO31 ==> Narrow(n) == n
  {
  }

  /** Different integers less than 2^31 apart are told apart, and so is anything that is not an integer. */
  predicate NearPair(p: Pair) {
    p.Some? && p.value.0.IntAtom? && p.value.1.IntAtom? ==> NearInt(p.value.0.n, p.value.1.n)
  }

  lemma {:induction false} NearPairTold(p: Pair)
    requires NearPair(p)
    ensures Told(p)
  {
  }

  lemma {:induction false} NearListKeys(k: Kind, xs: seq<Value>, ys: seq<Value>)
    requires forall i :: 0 <= i < |xs| ==> ScalarOk(k, xs[i])
    requires forall i :: 0 <= i < |ys| ==> ScalarOk(k, ys[i])
    requires NearLists(k, xs, ys)
    ensures NearPair(FirstPair(ListKey(k, xs), ListKey(k, ys)))
  {
    var x, y := ListKey(k, xs), ListKey(k, ys);
    if xs != [] && ys != [] {
      assert NearScalar(k, true, xs[0], ys[0]);
      forall i | 0 <= i < |xs| - 1 && i < |ys| - 1 ensures NearScalar(k, true, xs[1..][i], ys[1..][i]) {
        assert NearScalar(k, true, xs[i + 1], ys[i + 1]);
      }
      NearListKeys(k, xs[1..], ys[1..]);
      assert x[1..] == ListKey(k, xs[1..]) && y[1..] == ListKey(k, ys[1..]);
    }
  }

  lemma {:induction false} NearSlotKeys(s: Schema, ty: nat, f: Field, x: Slot, y: Slot)
    requires WfSchema(s) && WfField(|s|, f) && ComparableField(s, ty, f) && SlotOk(s, f, x) && SlotOk(s, f, y)
    requires NearSlots(s, ty, f, x, y)
    ensures NearPair(FirstPair(SlotKey(s, ty, f, x), SlotKey(s, ty, f, y)))
    decreases ty, 0
  {
    if f.repeated {
      assert forall i :: 0 <= i < |x.vs| ==> ValueOk(s, f.kind, x.vs[i]);
      assert forall i :: 0 <= i < |y.vs| ==> ValueOk(s, f.kind, y.vs[i]);
      NearListKeys(f.kind, x.vs, y.vs);
    } else if f.kind.Message? {
      NearKeys(s, f.kind.index, Read(s, f, x).m, Read(s, f, y).m, 0);
    }
  }

  lemma {:induction false} NearKeys(s: Schema, ty: nat, a: Msg, b: Msg, i: nat)
    requires WfSchema(s) && Comparable(s, ty) && WellTyped(s, ty, a) && WellTyped(s, ty, b) && i <= |s[ty]|
    requires NearFrom(s, ty, a, b, i)
    ensures NearPair(FirstPair(KeyFrom(s, ty, a, i), KeyFrom(s, ty, b, i)))
    decreases ty, 1 + |s[ty]| - i
  {
    if i < |s[ty]| {
      var f := s[ty][i];
      assert WfDescriptor(|s|, s[ty]) && WfField(|s|, f) && ComparableField(s, ty, f);
      assert SlotOk(s, f, a.slots[i]) && SlotOk(s, f, b.slots[i]);
      var x, y := SlotKey(s, ty, f, a.slots[i]), SlotKey(s, ty, f, b.slots[i]);
      NearSlotKeys(s, ty, f, a.slots[i], b.slots[i]);
      NearKeys(s, ty, a, b, i + 1);
      SlotsByKey(s, ty, f, a.slots[i], b.slots[i]);
      AlignedForked(x, y);
      FirstPairAppend(x, KeyFrom(s, ty, a, i + 1), y, KeyFrom(s, ty, b, i + 1));
    }
  }

  /** Inside the window the first difference is told apart. */
  lemma {:induction false} NearIsTold(s: Schema, ty: nat, a: Option<Msg>, b: Option<Msg>)
    requires Typed(s, ty, a) && Typed(s, ty, b) && Near(s, ty, a, b)
    ensures ToldApart(s, ty, a, b)
  {
    if a.Some? && b.Some? {
      NearKeys(s, ty, a.value, b.value, 0);
      NearPairTold(FirstDifference(s, ty, a.value, b.value));
    }
  }

  // ---- equal keys ----

  predicate SameSlots(s: Schema, ty: nat, f: Field, x: Slot, y: Slot)
    requires WfSchema(s) && WfField(|s|, f) && ComparableField(s, ty, f) && SlotOk(s, f, x) && SlotOk(s, f, y)
    decreases ty, 0
  {
    if f.repeated then x.vs == y.vs
    else if f.kind.Message? then SameFrom(s, f.kind.index, Read(s, f, x).m, Read(s, f, y).m, 0)
    else Read(s, f, x) == Read(s, f, y)
  }

  /** The fields from i on read the same, at any depth; an unset field reads as its default. */
  predicate SameFrom(s: Schema, ty: nat, a: Msg, b: Msg, i: nat)
    requires WfSchema(s) && Comparable(s, ty) && WellTyped(s, ty, a) && WellTyped(s, ty, b) && i <= |s[ty]|
    decreases ty, 1 + |s[ty]| - i
  {
    i < |s[ty]| ==>
      assert WfDescriptor(|s|, s[ty]) && WfField(|s|, s[ty][i]) && ComparableField(s, ty, s[ty][i]);
      SameSlots(s, ty, s[ty][i], a.slots[i], b.slots[i]) && SameFrom(s, ty, a, b, i + 1)
  }

  lemma {:induction false} AtomInjective(k: Kind, repeated: bool, a: Value, b: Value)
    requires ScalarOk(k, a) && ScalarOk(k, b)
    ensures AtomOf(k, repeated, a) == AtomOf(k, repeated, b) <==> a == b
  {
    if k.Enum? {
      assert k.values[FindByNumber(k.values, a.n)].number == a.n;
      assert k.values[FindByNumber(k.values, b.n)].number == b.n;
    }
  }

  lemma {:induction false} ListKeyInjective(k: Kind, xs: seq<Value>, ys: seq<Value>)
    requires forall i :: 0 <= i < |xs| ==> ScalarOk(k, xs[i])
    requires forall i :: 0 <= i < |ys| ==> ScalarOk(k, ys[i])
    ensures ListKey(k, xs) == ListKey(k, ys) <==> xs == ys
  {
    if xs != [] && ys != [] {
      AtomInjective(k, true, xs[0], ys[0]);
      ListKeyInjective(k, xs[1..], ys[1..]);
      assert xs == [xs[0]] + xs[1..] && ys == [ys[0]] + ys[1..];
      assert ListKey(k, xs)[1..] == ListKey(k, xs[1..]) && ListKey(k, ys)[1..] == ListKey(k, ys[1..]);
      assert ListKey(k, xs)[0] == AtomOf(k, true, xs[0]) && ListKey(k, ys)[0] == AtomOf(k, true, ys[0]);
    } else if xs != [] {
      assert ListKey(k, xs)[0] == AtomOf(k, true, xs[0]) && ListKey(k, ys)[0] == End;
    } else if ys != [] {
      assert ListKey(k, ys)[0] == AtomOf(k, true, ys[0]) && ListKey(k, xs)[0] == End;
    }
  }

  lemma {:induction false} SlotKeyInjective(s: Schema, ty: nat, f: Field, x: Slot, y: Slot)
    requires WfSchema(s) && WfField(|s|, f) && ComparableField(s, ty, f) && SlotOk(s, f, x) && SlotOk(s, f, y)
    ensures SlotKey(s, ty, f, x) == SlotKey(s, ty, f, y) <==> SameSlots(s, ty, f, x, y)
    decreases ty, 0
  {
    if f.repeated {
      assert forall i :: 0 <= i < |x.vs| ==> ValueOk(s, f.kind, x.vs[i]);
      assert forall i :: 0 <= i < |y.vs| ==> ValueOk(s, f.kind, y.vs[i]);
      ListKeyInjective(f.kind, x.vs, y.vs);
    } else if f.kind.Message? {
      KeyInjective(s, f.kind.index, Read(s, f, x).m, Read(s, f, y).m, 0);
    } else {
      AtomInjective(f.kind, false, Read(s, f, x), Read(s, f, y));
      assert SlotKey(s, ty, f, x)[0] == AtomOf(f.kind, false, Read(s, f, x));
      assert SlotKey(s, ty, f, y)[0] == AtomOf(f.kind, false, Read(s, f, y));
    }
  }

  /** The flattened values are equal exactly when every field reads the same. */
  lemma {:induction false} KeyInjective(s: Schema, ty: nat, a: Msg, b: Msg, i: nat)
    requires WfSchema(s) && Comparable(s, ty) && WellTyped(s, ty, a) && WellTyped(s, ty, b) && i <= |s[ty]|
    ensures KeyFrom(s, ty, a, i) == KeyFrom(s, ty, b, i) <==> SameFrom(s, ty, a, b, i)
    decreases ty, 1 + |s[ty]| - i
  {
    if i < |s[ty]| {
      var f := s[ty][i];
      assert WfDescriptor(|s|, s[ty]) && WfField(|s|, f) && ComparableField(s, ty, f);
      assert SlotOk(s, f, a.slots[i]) && SlotOk(s, f, b.slots[i]);
      var x, y := SlotKey(s, ty, f, a.slots[i]), SlotKey(s, ty, f, b.slots[i]);
      var x', y' := KeyFrom(s, ty, a, i + 1), KeyFrom(s, ty, b, i + 1);
      SlotKeyInjective(s, ty, f, a.slots[i], b.slots[i]);
      KeyInjective(s, ty, a, b, i + 1);
      SlotsByKey(s, ty, f, a.slots[i], b.slots[i]);
      AlignedForked(x, y);
      ForkedAppend(x, x', y, y');
      LexLaws(x + x', y + y', []);
      LexLaws(x, y, []);
      LexLaws(x', y', []);
    }
  }
}
