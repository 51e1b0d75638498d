/** The main results about `compare`, `less` and `orderless`, and what happens outside the window. */
module CompareLaws {
  import opened Options
  import opened Schema
  import opened Compare
  import opened Lexical
  import opened CompareOrder

  /**
   For any integers, exactly when the sign of `compare` is the lexicographic order of the
   flattened messages: the low 32 bits of the first difference have its sign or, if they are
   zero, the first difference whose low 32 bits are not zero happens to have the same sign.
   */
  lemma {:induction false} SignIsRight(s: Schema, ty: nat, a: Msg, b: Msg)
    requires Typed(s, ty, Some(a)) && Typed(s, ty, Some(b))
    ensures var x, y := KeyFrom(s, ty, a, 0), KeyFrom(s, ty, b, 0);
            var p, q := FirstPair(x, y), FirstSeen(x, y);
            Sign(CompareMessages(s, ty, Some(a), Some(b))) == LexCompare(x, y)
            <==> if Hidden(p) then q.Some? && SeenSign(q.value.0, q.value.1) == Sign(p.value.0.n - p.value.1.n)
                 else Right(p)
  {
    var x, y := KeyFrom(s, ty, a, 0), KeyFrom(s, ty, b, 0);
    var p := FirstPair(x, y);
    CompareByFirstDifference(s, ty, a, b);
    LexLaws(x, y, []);
    MessagesByKey(s, ty, a, b, 0);
    FirstSeenLaws(x, y);
    if p.Some? {
      RightIsSign(p);
    }
  }

  /** For any integers, the sign of `compare` is that of the first pair the comparer sees as different. */
  lemma {:induction false} CompareByFirstSeen(s: Schema, ty: nat, a: Msg, b: Msg)
    requires Typed(s, ty, Some(a)) && Typed(s, ty, Some(b))
    ensures var q := FirstSeen(KeyFrom(s, ty, a, 0), KeyFrom(s, ty, b, 0));
            && Sign(CompareMessages(s, ty, Some(a), Some(b)))
               == (if q.None? then 0 else SeenSign(q.value.0, q.value.1))
            && FirstSeen(KeyFrom(s, ty, b, 0), KeyFrom(s, ty, a, 0)) == Swap(q)
  {
    MessagesByKey(s, ty, a, b, 0);
    FirstSeenLaws(KeyFrom(s, ty, a, 0), KeyFrom(s, ty, b, 0));
  }

  /** Both orders of a pair read as negative: integers 2^31 apart modulo 2^32. */
  lemma {:induction false} BothNegative(a: Atom, b: Atom)
    ensures SeenSign(a, b) < 0 && SeenSign(b, a) < 0 <==> Ints(a, b) && (a.n - b.n) % TWO32 == TWO31
  {
    AtomLaws(a, b, End);
  }

  /**
   For any integers, exactly when two messages are each `less` than the other: the first pair
   the comparer sees as different are integers 2^31 apart modulo 2^32.
   */
  lemma {:induction false} AsymmetryFailsIff(s: Schema, ty: nat, a: Msg, b: Msg)
    requires Typed(s, ty, Some(a)) && Typed(s, ty, Some(b))
    ensures Less(s, ty, Some(a), Some(b)) && Less(s, ty, Some(b), Some(a))
       <==> var q := FirstSeen(KeyFrom(s, ty, a, 0), KeyFrom(s, ty, b, 0));
            q.Some? && Ints(q.value.0, q.value.1) && (q.value.0.n - q.value.1.n) % TWO32 == TWO31
  {
    var q := FirstSeen(KeyFrom(s, ty, a, 0), KeyFrom(s, ty, b, 0));
    CompareByFirstSeen(s, ty, a, b);
    CompareByFirstSeen(s, ty, b, a);
    if q.Some? {
      BothNegative(q.value.0, q.value.1);
    }
  }

  lemma {:induction false} CompareByColumns(s: Schema, ty: nat, a: Option<Msg>, b: Option<Msg>)
    requires Typed(s, ty, a) && Typed(s, ty, b) && ToldApart(s, ty, a, b)
    requires a.Some? && b.Some?
    ensures Sign(CompareMessages(s, ty, a, b))
         == ColumnCompare([], Columns(s, ty, a.value), Columns(s, ty, b.value), 0)
    ensures ToldApart(s, ty, b, a)
  {
    CompareByFirstDifference(s, ty, a.value, b.value);
    LexLaws(KeyFrom(s, ty, a.value, 0), KeyFrom(s, ty, b.value, 0), []);
    var p := FirstDifference(s, ty, a.value, b.value);
    if p.Some? {
      ToldNotMinimal(p);
    }
    KeysByColumns(s, ty, a.value, b.value, 0);
  }

  /**
   `compare` is a total preorder in sign, null included: reflexive, antisymmetric and
   transitive, on messages whose first differing values are told apart.
   */
  lemma {:induction false} CompareIsOrder(s: Schema, ty: nat, a: Option<Msg>, b: Option<Msg>, c: Option<Msg>)
    requires Typed(s, ty, a) && Typed(s, ty, b) && Typed(s, ty, c)
    requires ToldApart(s, ty, a, b) && ToldApart(s, ty, b, c) && ToldApart(s, ty, a, c)
    ensures CompareMessages(s, ty, a, a) == 0
    ensures a.None? && b.Some? ==> CompareMessages(s, ty, a, b) == -1 && CompareMessages(s, ty, b, a) == 1
    ensures Sign(CompareMessages(s, ty, b, a)) == -Sign(CompareMessages(s, ty, a, b))
    ensures CompareMessages(s, ty, a, b) <= 0 && CompareMessages(s, ty, b, c) <= 0
        ==> CompareMessages(s, ty, a, c) <= 0
  {
    if a.Some? {
      CompareByFirstDifference(s, ty, a.value, a.value);
    }
    if a.Some? && b.Some? {
      CompareByColumns(s, ty, a, b);
      CompareByColumns(s, ty, b, a);
      var z := if c.Some? then Columns(s, ty, c.value) else Columns(s, ty, a.value);
      ColumnLaws([], Columns(s, ty, a.value), Columns(s, ty, b.value), z, 0);
      if c.Some? {
        CompareByColumns(s, ty, b, c);
        CompareByColumns(s, ty, a, c);
      }
    }
  }

  lemma {:induction false} ToldBack(s: Schema, ty: nat, a: Option<Msg>, b: Option<Msg>)
    requires Typed(s, ty, a) && Typed(s, ty, b) && ToldApart(s, ty, a, b)
    ensures ToldApart(s, ty, b, a)
  {
    if a.Some? && b.Some? {
      CompareByColumns(s, ty, a, b);
    }
  }

  /** `less` is a strict weak ordering: irreflexive, asymmetric, transitive, and incomparability is transitive. */
  lemma {:induction false} LessIsStrictWeak(s: Schema, ty: nat, a: Option<Msg>, b: Option<Msg>, c: Option<Msg>)
    requires Typed(s, ty, a) && Typed(s, ty, b) && Typed(s, ty, c)
    requires ToldApart(s, ty, a, b) && ToldApart(s, ty, b, c) && ToldApart(s, ty, a, c)
    ensures !Less(s, ty, a, a)
    ensures !(Less(s, ty, a, b) && Less(s, ty, b, a))
    ensures Less(s, ty, a, b) && Less(s, ty, b, c) ==> Less(s, ty, a, c)
    ensures !Less(s, ty, a, b) && !Less(s, ty, b, a) && !Less(s, ty, b, c) && !Less(s, ty, c, b)
        ==> !Less(s, ty, a, c) && !Less(s, ty, c, a)
  {
    ToldBack(s, ty, a, b);
    ToldBack(s, ty, b, c);
    ToldBack(s, ty, a, c);
    CompareIsOrder(s, ty, a, b, c);
    CompareIsOrder(s, ty, c, b, a);
    CompareIsOrder(s, ty, b, c, a);
    CompareIsOrder(s, ty, c, a, b);
    CompareIsOrder(s, ty, b, a, c);
  }

  /** `equals_to`, where values are told apart: equal exactly when every field reads the same, at any depth. */
  lemma {:induction false} EqualIsSameReading(s: Schema, ty: nat, a: Msg, b: Msg)
    requires Typed(s, ty, Some(a)) && Typed(s, ty, Some(b)) && ToldApart(s, ty, Some(a), Some(b))
    ensures CompareMessages(s, ty, Some(a), Some(b)) == 0 <==> SameFrom(s, ty, a, b, 0)
  {
    CompareByFirstDifference(s, ty, a, b);
    KeyInjective(s, ty, a, b, 0);
  }

  /** Inside the window all the results about messages told apart hold. */
  lemma {:induction false} WindowIsOrdered(s: Schema, ty: nat, a: Option<Msg>, b: Option<Msg>, c: Option<Msg>)
    requires Typed(s, ty, a) && Typed(s, ty, b) && Typed(s, ty, c)
    requires Near(s, ty, a, b) && Near(s, ty, b, c) && Near(s, ty, a, c)
    ensures ToldApart(s, ty, a, b) && ToldApart(s, ty, b, c) && ToldApart(s, ty, a, c)
    ensures Sign(CompareMessages(s, ty, b, a)) == -Sign(CompareMessages(s, ty, a, b))
    ensures CompareMessages(s, ty, a, b) <= 0 && CompareMessages(s, ty, b, c) <= 0
        ==> CompareMessages(s, ty, a, c) <= 0
  {
    NearIsTold(s, ty, a, b);
    NearIsTold(s, ty, b, c);
    NearIsTold(s, ty, a, c);
    CompareIsOrder(s, ty, a, b, c);
  }

  // ---- orderless ----

  /** `orderless` is a strict weak ordering on non-null messages told apart, for any flags. */
  lemma {:induction false} OrderlessIsStrictWeak(s: Schema, ty: nat, flags: seq<bool>, a: Msg, b: Msg, c: Msg)
    requires Typed(s, ty, Some(a)) && Typed(s, ty, Some(b)) && Typed(s, ty, Some(c))
    requires ToldApart(s, ty, Some(a), Some(b)) && ToldApart(s, ty, Some(b), Some(c))
    requires ToldApart(s, ty, Some(a), Some(c))
    ensures !Orderless(s, ty, flags, Some(a), Some(a))
    ensures !(Orderless(s, ty, flags, Some(a), Some(b)) && Orderless(s, ty, flags, Some(b), Some(a)))
    ensures Orderless(s, ty, flags, Some(a), Some(b)) && Orderless(s, ty, flags, Some(b), Some(c))
        ==> Orderless(s, ty, flags, Some(a), Some(c))
    ensures !Orderless(s, ty, flags, Some(a), Some(b)) && !Orderless(s, ty, flags, Some(b), Some(a))
         && !Orderless(s, ty, flags, Some(b), Some(c)) && !Orderless(s, ty, flags, Some(c), Some(b))
        ==> !Orderless(s, ty, flags, Some(a), Some(c)) && !Orderless(s, ty, flags, Some(c), Some(a))
  {
    var x, y, z := Columns(s, ty, a), Columns(s, ty, b), Columns(s, ty, c);
    CompareByFirstDifference(s, ty, a, a);
    ToldBack(s, ty, Some(a), Some(b));
    ToldBack(s, ty, Some(b), Some(c));
    ToldBack(s, ty, Some(a), Some(c));
    OrderlessByColumns(s, ty, flags, a, a, 0);
    OrderlessByColumns(s, ty, flags, a, b, 0);
    OrderlessByColumns(s, ty, flags, b, a, 0);
    OrderlessByColumns(s, ty, flags, b, c, 0);
    OrderlessByColumns(s, ty, flags, c, b, 0);
    OrderlessByColumns(s, ty, flags, a, c, 0);
    OrderlessByColumns(s, ty, flags, c, a, 0);
    ColumnLaws(flags, x, x, x, 0);
    ColumnLaws(flags, x, y, z, 0);
    ColumnLaws(flags, y, z, x, 0);
    ColumnLaws(flags, x, z, y, 0);
    ColumnLaws(flags, z, y, x, 0);
    ColumnLaws(flags, z, x, y, 0);
    assert x[0..] == x && y[0..] == y && z[0..] == z;
  }

  /** With no flag set the field loops of `orderless` and `compare` decide alike, whatever the integers. */
  lemma {:induction false} OrderlessAscending(s: Schema, ty: nat, flags: seq<bool>, a: Msg, b: Msg, i: nat)
    requires Typed(s, ty, Some(a)) && Typed(s, ty, Some(b)) && i <= |s[ty]|
    requires forall j :: 0 <= j < |flags| ==> !flags[j]
    ensures OrderlessFrom(s, ty, flags, a, b, i) <==> CompareFrom(s, ty, a, b, i) < 0
    decreases |s[ty]| - i
  {
    if i < |s[ty]| {
      OrderlessAscending(s, ty, flags, a, b, i + 1);
    }
  }

  /** With no flag set `orderless` is `less`; with every field flagged it is, on messages told apart, `less` the other way round. */
  lemma {:induction false} OrderlessUniform(s: Schema, ty: nat, flags: seq<bool>, a: Msg, b: Msg)
    requires Typed(s, ty, Some(a)) && Typed(s, ty, Some(b))
    ensures (forall i :: 0 <= i < |flags| ==> !flags[i])
        ==> (Orderless(s, ty, flags, Some(a), Some(b)) <==> Less(s, ty, Some(a), Some(b)))
    ensures |s[ty]| <= |flags| && (forall i :: 0 <= i < |s[ty]| ==> flags[i]) && ToldApart(s, ty, Some(a), Some(b))
        ==> (Orderless(s, ty, flags, Some(a), Some(b)) <==> Less(s, ty, Some(b), Some(a)))
  {
    if forall i :: 0 <= i < |flags| ==> !flags[i] {
      OrderlessAscending(s, ty, flags, a, b, 0);
    }
    if |s[ty]| <= |flags| && (forall i :: 0 <= i < |s[ty]| ==> flags[i]) && ToldApart(s, ty, Some(a), Some(b)) {
      var x, y := Columns(s, ty, a), Columns(s, ty, b);
      ToldBack(s, ty, Some(a), Some(b));
      OrderlessByColumns(s, ty, flags, a, b, 0);
      CompareByColumns(s, ty, Some(b), Some(a));
      ColumnLaws([], x, y, x, 0);
      ColumnsDescending(flags, x, y, 0);
    }
  }

  /** A null message is both before and after every other: asymmetry fails exactly on one null message. */
  lemma {:induction false} OrderlessAsymmetry(s: Schema, ty: nat, flags: seq<bool>, a: Option<Msg>, b: Option<Msg>)
    requires Typed(s, ty, a) && Typed(s, ty, b) && ToldApart(s, ty, a, b)
    ensures !(Orderless(s, ty, flags, a, b) && Orderless(s, ty, flags, b, a)) <==> (a.None? <==> b.None?)
  {
    if a.Some? && b.Some? {
      CompareByFirstDifference(s, ty, b.value, b.value);
      OrderlessIsStrictWeak(s, ty, flags, a.value, b.value, b.value);
    }
  }

  // ---- outside the window ----

  /** For 32-bit values the subtraction has the right sign exactly inside the window. */
  lemma {:induction false} WindowIsExact32(k: Kind, a: int, b: int)
    requires k.Int32? || k.UInt32?
    requires ScalarOk(k, Num(a)) && ScalarOk(k, Num(b))
    ensures Sign(CompareScalar(k, false, Num(a), Num(b))) == Sign(a - b) <==> -TWO31 <= a - b < TWO31
  {
  }

  /** For any integers: the sign is right exactly when the difference is 0 or its low 32 bits have that sign. */
  lemma {:induction false} WindowIsExact(n: int)
    ensures Sign(Narrow(n)) == Sign(n)
       <==> n == 0 || (n > 0 && 0 < n % TWO32 < TWO31) || (n < 0 && n % TWO32 >= TWO31)
  {
  }

  /** One field of the given kind. */
  function OneField(k: Kind): Schema
  {
    [[Field("v", k, false, Num(0))]]
  }

  function OneValue(n: int): Msg {
    Msg([One(Num(n))])
  }

  lemma {:induction false} OneValueComparison(k: Kind, a: int, b: int)
    requires k.Int32? || k.Int64? || k.UInt32? || k.UInt64?
    requires ScalarOk(k, Num(a)) && ScalarOk(k, Num(b))
    ensures Typed(OneField(k), 0, Some(OneValue(a))) && Typed(OneField(k), 0, Some(OneValue(b)))
    ensures CompareMessages(OneField(k), 0, Some(OneValue(a)), Some(OneValue(b))) == Narrow(a - b)
  {
    var s := OneField(k);
    assert IsIdentifier("v") && ScalarOk(k, Num(0));
    assert WfField(1, s[0][0]) && WfDescriptor(1, s[0]) && WfSchema(s);
    assert ComparableField(s, 0, s[0][0]) && Comparable(s, 0);
    assert ValueOk(s, k, Num(a)) && ValueOk(s, k, Num(b));
    assert SlotOk(s, s[0][0], One(Num(a))) && SlotOk(s, s[0][0], One(Num(b)));
    assert WellTyped(s, 0, OneValue(a)) && WellTyped(s, 0, OneValue(b));
    assert CompareFrom(s, 0, OneValue(a), OneValue(b), 1) == 0;
  }

  /** Outside the window transitivity fails: three uint32 values in a cycle. */
  lemma {:induction false} CycleOutsideWindow()
    ensures var s := OneField(UInt32);
            var a, b, c := OneValue(0), OneValue(1500000000), OneValue(3000000000);
            && Typed(s, 0, Some(a)) && Typed(s, 0, Some(b)) && Typed(s, 0, Some(c))
            && Less(s, 0, Some(a), Some(b)) && Less(s, 0, Some(b), Some(c)) && Less(s, 0, Some(c), Some(a))
  {
    OneValueComparison(UInt32, 0, 1500000000);
    OneValueComparison(UInt32, 1500000000, 3000000000);
    OneValueComparison(UInt32, 3000000000, 0);
  }

  /** Outside the window different messages compare equal: int64 values 2^32 apart. */
  lemma {:induction false} EqualOutsideWindow()
    ensures var s := OneField(Int64);
            var a, b := OneValue(0), OneValue(TWO32);
            && Typed(s, 0, Some(a)) && Typed(s, 0, Some(b))
            && CompareMessages(s, 0, Some(a), Some(b)) == 0
            && !SameFrom(s, 0, a, b, 0)
  {
    OneValueComparison(Int64, 0, TWO32);
    var s, a, b := OneField(Int64), OneValue(0), OneValue(TWO32);
    assert !SameSlots(s, 0, s[0][0], a.slots[0], b.slots[0]);
  }
}
