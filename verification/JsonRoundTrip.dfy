/** Parsing what was printed is a merge. */
module JsonRoundTrip {
  import opened Schema
  import opened JsonText
  import opened JsonReadBack
  import opened JsonMessage
  import opened JsonMerge

  // ---- the parser is a fold ----

  /** Members of two concatenated objects are applied one object after the other. */
  lemma {:induction false} ApplyMembersAppend(
      libc: Libc, s: Schema, ty: nat, m: Msg, a: seq<Member>, b: seq<Member>)
    requires WfSchema(s) && WellTyped(s, ty, m)
    ensures var first := ApplyMembers(libc, s, ty, m, a);
            ApplyMembers(libc, s, ty, m, a + b)
            == if first.rc.Ok? then ApplyMembers(libc, s, ty, first.m, b) else first
    decreases a
  {
    if a == [] {
      assert a + b == b;
    } else {
      assert (a + b)[1..] == a[1..] + b;
      var out := ApplyMember(libc, s, ty, m, a[0]);
      if out.rc.Ok? {
        ApplyMembersAppend(libc, s, ty, out.m, a[1..], b);
      }
    }
  }

  lemma {:induction false} ApplyElementsAppend(
      libc: Libc, s: Schema, ty: nat, i: nat, m: Msg, a: seq<Json>, b: seq<Json>)
    requires WfSchema(s) && WellTyped(s, ty, m) && i < |s[ty]| && s[ty][i].repeated
    ensures var first := ApplyElements(libc, s, ty, i, m, a);
            ApplyElements(libc, s, ty, i, m, a + b)
            == if first.rc.Ok? then ApplyElements(libc, s, ty, i, first.m, b) else first
    decreases a
  {
    if a == [] {
      assert a + b == b;
    } else {
      assert (a + b)[1..] == a[1..] + b;
      var out := ApplyElement(libc, s, ty, i, m, a[0]);
      if out.rc.Ok? {
        ApplyElementsAppend(libc, s, ty, i, out.m, a[1..], b);
      }
    }
  }

  // ---- names ----

  lemma {:induction false} CStrIdentifier(name: string)
    requires forall i :: 0 <= i < |name| ==> IsIdentifierChar(name[i])
    ensures CStr(name) == name
  {
    CStrKeeps(name);
  }

  lemma {:induction false} FindOwnField(d: Descriptor, i: nat)
    requires DistinctFieldNames(d) && i < |d|
    ensures FindField(d, d[i].name) == i
  {
  }

  // ---- scalars ----

  /** A printed scalar converts back to what the text keeps of it. */
  lemma {:induction false} ConvertScalarTree(libc: Libc, types: nat, k: Kind, v: Value)
    requires WfKind(types, k) && ScalarOk(k, v)
    ensures Convert(libc, k, ScalarTree(libc, k, v)) == Converted(CanonScalar(libc, k, v))
  {
    if k.Enum? {
      var i := FindByNumber(k.values, v.n);
      CStrIdentifier(k.values[i].name);
    } else if k.Bool? {
      DecIsInteger(0);
      DecIsInteger(1);
    } else if k.Int32? || k.Int64? || k.UInt32? || k.UInt64? {
      ConvertInteger(libc, k, v.n);
    }
  }

  /** The number node of a printed 64-bit integer: an integer inside (-2^63, 2^63), else a double. */
  lemma {:induction false} PrintedInteger(libc: Libc, n: int)
    requires -TWO63 <= n < TWO64
    ensures NumberNode(libc, Dec(n)).dValid
    ensures NumberNode(libc, Dec(n)).iValid <==> -TWO63 < n < TWO63
    ensures -TWO63 < n < TWO63 ==> NumberNode(libc, Dec(n)).i == n
    ensures NumberNode(libc, Dec(n)).d == RoundToDouble(n) as real
  {
    DecIsInteger(n);
  }

  lemma {:induction false} CastInRange(k: Kind, n: int)
    requires k.Int32? || k.Int64? || k.UInt32? || k.UInt64?
    requires ScalarOk(k, Num(n))
    ensures Cast(k, n) == n
  {
  }

  /** A number node with the readings of n converts to n, or to the double nearest to n. */
  lemma {:induction false} ConvertNumber(libc: Libc, k: Kind, node: Json, n: int)
    requires k.Int32? || k.Int64? || k.UInt32? || k.UInt64?
    requires ScalarOk(k, Num(n))
    requires node.Number? && node.dValid && node.d == RoundToDouble(n) as real
    requires node.iValid <==> -TWO63 < n < TWO63
    requires node.iValid ==> node.i == n
    ensures ToInteger(libc, k, node)
         == Converted(Num(if -TWO63 < n < TWO63 then n else Cast(k, RoundToDouble(n))))
  {
    if node.iValid {
      CastInRange(k, n);
    } else {
      TruncateInteger(RoundToDouble(n));
    }
  }

  lemma {:induction false} TruncateInteger(n: int)
    ensures Truncate(n as real) == n
  {
  }

  lemma {:induction false} ConvertInteger(libc: Libc, k: Kind, n: int)
    requires k.Int32? || k.Int64? || k.UInt32? || k.UInt64?
    requires ScalarOk(k, Num(n))
    ensures ToInteger(libc, k, NumberNode(libc, Dec(n))) == Converted(CanonScalar(libc, k, Num(n)))
  {
    PrintedInteger(libc, n);
    ConvertNumber(libc, k, NumberNode(libc, Dec(n)), n);
    if n == -TWO63 {
      RoundMinimum();
      CastInRange(k, n);
    }
  }

  lemma {:induction false} RoundMinimum()
    ensures RoundToDouble(-TWO63) == -TWO63
  {
    DoubleFrom63(TWO63);
  }

  // ---- one slot ----

  lemma {:induction false} WithSlotTwice(m: Msg, i: nat, a: Slot, b: Slot)
    requires i < |m.slots|
    ensures WithSlot(WithSlot(m, i, a), i, b) == WithSlot(m, i, b)
  {
    assert m.slots[i := a][i := b] == m.slots[i := b];
  }

  /** What one member leaves of a target: slot i merged, the rest unchanged. */
  function MergeAt(libc: Libc, s: Schema, ty: nat, t: Msg, m: Msg, i: nat): (r: Msg)
    requires WfSchema(s) && WellTyped(s, ty, t) && WellTyped(s, ty, m) && i < |m.slots|
    ensures WellTyped(s, ty, r)
  {
    assert SlotOk(s, s[ty][i], m.slots[i]) && SlotOk(s, s[ty][i], t.slots[i]);
    WithSlot(t, i, MergeSlot(s, s[ty][i], t.slots[i], CanonSlot(libc, s, s[ty][i], m.slots[i])))
  }

  lemma {:induction false} ApplyPrintedSlot(libc: Libc, s: Schema, ty: nat, t: Msg, m: Msg, i: nat)
    requires WfSchema(s) && WellTyped(s, ty, t) && WellTyped(s, ty, m) && i < |m.slots|
    ensures ApplyMembers(libc, s, ty, t, SlotMembers(libc, s, s[ty][i], m.slots[i]))
         == Outcome(Ok, MergeAt(libc, s, ty, t, m, i))
    decreases m, i
  {
    var f := s[ty][i];
    assert WfDescriptor(|s|, s[ty]) && WfField(|s|, f);
    assert SlotOk(s, f, t.slots[i]) && SlotOk(s, f, m.slots[i]);
    FindOwnField(s[ty], i);
    CStrIdentifier(f.name);
    match m.slots[i]
    case Unset =>
      assert t.slots[i := t.slots[i]] == t.slots;
    case One(v) =>
      assert ValueOk(s, f.kind, v);
      ApplyPrintedSingular(libc, s, ty, t, m, i);
    case Many(vs) =>
      if vs == [] {
        assert t.slots[i].vs + [] == t.slots[i].vs;
        assert t.slots[i := t.slots[i]] == t.slots;
      } else {
        ApplyPrintedElements(libc, s, ty, i, t, vs);
        var cs := CanonSlot(libc, s, f, m.slots[i]).vs;
        assert cs == CanonValues(libc, s, f.kind, vs);
      }
  }

  lemma {:induction false} ApplyPrintedSingular(libc: Libc, s: Schema, ty: nat, t: Msg, m: Msg, i: nat)
    requires WfSchema(s) && WellTyped(s, ty, t) && WellTyped(s, ty, m) && i < |m.slots|
    requires m.slots[i].One? && !s[ty][i].repeated && ValueOk(s, s[ty][i].kind, m.slots[i].v)
    ensures ApplySingular(libc, s, ty, i, t, ValueTree(libc, s, s[ty][i].kind, m.slots[i].v))
         == Outcome(Ok, MergeAt(libc, s, ty, t, m, i))
    decreases m.slots[i], 0
  {
    var f, v := s[ty][i], m.slots[i].v;
    assert WfDescriptor(|s|, s[ty]) && WfField(|s|, f);
    assert SlotOk(s, f, t.slots[i]);
    if f.kind.Message? {
      var target := MutableSub(s, f, t.slots[i]);
      ApplyPrinted(libc, s, f.kind.index, target, v.m);
      MergeSubMessage(libc, s, f, t.slots[i], v);
    } else {
      ConvertScalarTree(libc, |s|, f.kind, v);
      var c := One(CanonScalar(libc, f.kind, v));
      assert CanonSlot(libc, s, f, m.slots[i]) == c;
      assert MergeSlot(s, f, t.slots[i], c) == c;
    }
  }

  /** Merging into the sub-message that is there, or into a new one, is merging the slots. */
  lemma {:induction false} MergeSubMessage(libc: Libc, s: Schema, f: Field, t: Slot, v: Value)
    requires WfSchema(s) && WfField(|s|, f) && f.kind.Message?
    requires SlotOk(s, f, t) && SlotOk(s, f, One(v)) && ValueOk(s, f.kind, v)
    ensures MergeSlot(s, f, t, CanonSlot(libc, s, f, One(v)))
         == One(Sub(Merge(s, f.kind.index, MutableSub(s, f, t), Canon(libc, s, f.kind.index, v.m))))
  {
    var canon := Canon(libc, s, f.kind.index, v.m);
    MergeIntoEmpty(s, f.kind.index, canon);
    assert CanonSlot(libc, s, f, One(v)) == One(Sub(canon));
  }

  function CanonValues(libc: Libc, s: Schema, k: Kind, vs: seq<Value>): (cs: seq<Value>)
    requires WfSchema(s) && forall i :: 0 <= i < |vs| ==> ValueOk(s, k, vs[i])
    ensures |cs| == |vs| && forall i :: 0 <= i < |vs| ==> ValueOk(s, k, cs[i])
  {
    seq(|vs|, i requires 0 <= i < |vs| => CanonValue(libc, s, k, vs[i]))
  }

  lemma {:induction false} ApplyPrintedElements(libc: Libc, s: Schema, ty: nat, i: nat, t: Msg, vs: seq<Value>)
    requires WfSchema(s) && WellTyped(s, ty, t) && i < |s[ty]| && s[ty][i].repeated
    requires SlotOk(s, s[ty][i], t.slots[i])
    requires forall j :: 0 <= j < |vs| ==> ValueOk(s, s[ty][i].kind, vs[j])
    ensures ApplyElements(libc, s, ty, i, t, ValueTrees(libc, s, s[ty][i].kind, vs))
         == Outcome(Ok, WithSlot(t, i, Many(t.slots[i].vs + CanonValues(libc, s, s[ty][i].kind, vs))))
    decreases vs, 0
  {
    var k := s[ty][i].kind;
    var nodes, cs := ValueTrees(libc, s, k, vs), CanonValues(libc, s, k, vs);
    if vs == [] {
      assert t.slots[i].vs + cs == t.slots[i].vs;
      assert t.slots[i := t.slots[i]] == t.slots;
    } else {
      var prior := t.slots[i].vs;
      var next := WithSlot(t, i, Many(prior + [cs[0]]));
      ApplyPrintedElement(libc, s, ty, i, t, vs[0]);
      assert WellTyped(s, ty, next) by {
        assert WellTyped(s, ty, ApplyElement(libc, s, ty, i, t, nodes[0]).m);
      }
      assert SlotOk(s, s[ty][i], next.slots[i]);
      TailTrees(libc, s, k, vs);
      TailCanon(libc, s, k, vs);
      ApplyPrintedElements(libc, s, ty, i, next, vs[1..]);
      assert prior + [cs[0]] + cs[1..] == prior + cs;
      WithSlotTwice(t, i, next.slots[i], Many(prior + cs));
      ElementsCons(libc, s, ty, i, t, nodes, next, WithSlot(t, i, Many(prior + cs)));
    }
  }

  lemma {:induction false} TailTrees(libc: Libc, s: Schema, k: Kind, vs: seq<Value>)
    requires vs != [] && forall j :: 0 <= j < |vs| ==> ValueOk(s, k, vs[j])
    ensures ValueTrees(libc, s, k, vs)[1..] == ValueTrees(libc, s, k, vs[1..])
  {
    var tail := vs[1..];
    assert forall j :: 0 <= j < |tail| ==> tail[j] == vs[j + 1];
  }

  lemma {:induction false} TailCanon(libc: Libc, s: Schema, k: Kind, vs: seq<Value>)
    requires WfSchema(s) && vs != [] && forall j :: 0 <= j < |vs| ==> ValueOk(s, k, vs[j])
    ensures CanonValues(libc, s, k, vs)[1..] == CanonValues(libc, s, k, vs[1..])
  {
    var tail := vs[1..];
    assert forall j :: 0 <= j < |tail| ==> tail[j] == vs[j + 1];
  }

  lemma {:induction false} ElementsCons(libc: Libc, s: Schema, ty: nat, i: nat, t: Msg, nodes: seq<Json>, next: Msg, last: Msg)
    requires WfSchema(s) && WellTyped(s, ty, t) && WellTyped(s, ty, next)
    requires i < |s[ty]| && s[ty][i].repeated && nodes != []
    requires ApplyElement(libc, s, ty, i, t, nodes[0]) == Outcome(Ok, next)
    requires ApplyElements(libc, s, ty, i, next, nodes[1..]) == Outcome(Ok, last)
    ensures ApplyElements(libc, s, ty, i, t, nodes) == Outcome(Ok, last)
  {
  }

  lemma {:induction false} ApplyPrintedElement(libc: Libc, s: Schema, ty: nat, i: nat, t: Msg, v: Value)
    requires WfSchema(s) && WellTyped(s, ty, t) && i < |s[ty]| && s[ty][i].repeated
    requires SlotOk(s, s[ty][i], t.slots[i])
    requires ValueOk(s, s[ty][i].kind, v)
    ensures ApplyElement(libc, s, ty, i, t, ValueTree(libc, s, s[ty][i].kind, v))
         == Outcome(Ok, WithSlot(t, i, Many(t.slots[i].vs + [CanonValue(libc, s, s[ty][i].kind, v)])))
    decreases v, 0
  {
    var f := s[ty][i];
    assert WfDescriptor(|s|, s[ty]) && WfField(|s|, f);
    if f.kind.Message? {
      ApplyPrinted(libc, s, f.kind.index, Empty(s, f.kind.index), v.m);
      MergeIntoEmpty(s, f.kind.index, Canon(libc, s, f.kind.index, v.m));
    } else {
      ConvertScalarTree(libc, |s|, f.kind, v);
    }
  }

  // ---- the whole message ----

  /** The first n slots merged. */
  function MergeUpTo(libc: Libc, s: Schema, ty: nat, t: Msg, m: Msg, n: nat): (r: Msg)
    requires WfSchema(s) && WellTyped(s, ty, t) && WellTyped(s, ty, m) && n <= |m.slots|
    ensures WellTyped(s, ty, r)
  {
    var full := Merge(s, ty, t, Canon(libc, s, ty, m));
    Msg(full.slots[..n] + t.slots[n..])
  }

  lemma {:induction false} ApplyPrintedUpTo(libc: Libc, s: Schema, ty: nat, t: Msg, m: Msg, n: nat)
    requires WfSchema(s) && WellTyped(s, ty, t) && WellTyped(s, ty, m) && n <= |m.slots|
    ensures ApplyMembers(libc, s, ty, t, MembersUpTo(libc, s, ty, m, n))
         == Outcome(Ok, MergeUpTo(libc, s, ty, t, m, n))
    decreases m, n
  {
    if n == 0 {
      assert MergeUpTo(libc, s, ty, t, m, 0).slots == t.slots;
    } else {
      var before := MergeUpTo(libc, s, ty, t, m, n - 1);
      ApplyPrintedUpTo(libc, s, ty, t, m, n - 1);
      ApplyPrintedSlot(libc, s, ty, before, m, n - 1);
      MergeNext(libc, s, ty, t, m, n - 1);
      ApplyInTwo(libc, s, ty, t, MembersUpTo(libc, s, ty, m, n - 1), before,
                 SlotMembers(libc, s, s[ty][n - 1], m.slots[n - 1]), MergeUpTo(libc, s, ty, t, m, n));
    }
  }

  lemma {:induction false} ApplyInTwo(libc: Libc, s: Schema, ty: nat, m: Msg, a: seq<Member>, mid: Msg, b: seq<Member>, last: Msg)
    requires WfSchema(s) && WellTyped(s, ty, m) && WellTyped(s, ty, mid)
    requires ApplyMembers(libc, s, ty, m, a) == Outcome(Ok, mid)
    requires ApplyMembers(libc, s, ty, mid, b) == Outcome(Ok, last)
    ensures ApplyMembers(libc, s, ty, m, a + b) == Outcome(Ok, last)
  {
    ApplyMembersAppend(libc, s, ty, m, a, b);
  }

  lemma {:induction false} MergeNext(libc: Libc, s: Schema, ty: nat, t: Msg, m: Msg, i: nat)
    requires WfSchema(s) && WellTyped(s, ty, t) && WellTyped(s, ty, m) && i < |m.slots|
    ensures MergeAt(libc, s, ty, MergeUpTo(libc, s, ty, t, m, i), m, i) == MergeUpTo(libc, s, ty, t, m, i + 1)
  {
    var before, after := MergeUpTo(libc, s, ty, t, m, i), MergeUpTo(libc, s, ty, t, m, i + 1);
    assert before.slots[i] == t.slots[i];
    assert before.slots[i := after.slots[i]] == after.slots;
  }

  /** Parsing the tree of a message into a target merges what the text keeps of it. */
  lemma {:induction false} ApplyPrinted(libc: Libc, s: Schema, ty: nat, t: Msg, m: Msg)
    requires WfSchema(s) && WellTyped(s, ty, t) && WellTyped(s, ty, m)
    ensures ApplyObject(libc, s, ty, t, TreeOf(libc, s, ty, m))
         == Outcome(Ok, Merge(s, ty, t, Canon(libc, s, ty, m)))
    decreases m, |m.slots| + 1
  {
    ApplyPrintedUpTo(libc, s, ty, t, m, |m.slots|);
    assert MergeUpTo(libc, s, ty, t, m, |m.slots|).slots == Merge(s, ty, t, Canon(libc, s, ty, m)).slots;
  }
}
