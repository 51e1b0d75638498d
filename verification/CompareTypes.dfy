/**
 For which message types `less` and `orderless` are strict weak orderings on all messages,
 without any window.
 */
module CompareTypes {
  import opened Options
  import opened Schema
  import opened Compare
  import opened Lexical
  import opened CompareOrder
  import opened CompareLaws

  // ---- types whose values the comparer can order ----

  /** Seen from value p, all numbers of the enum lie less than half a turn ahead on the circle of 2^32. */
  predicate HalfFrom(values: seq<EnumValue>, p: nat)
    requires p < |values|
  {
    forall q :: 0 <= q < |values| ==> (values[q].number - values[p].number) % TWO32 < TWO31
  }

  predicate HalfTurn(values: seq<EnumValue>) {
    exists p :: 0 <= p < |values| && HalfFrom(values, p)
  }

  /**
   Scalars of the kind are ordered whatever their values: no integers, and a singular enum only
   if its numbers lie within half a turn.
   */
  predicate OrderedKind(k: Kind, repeated: bool) {
    match k
    case Int32 => false
    case Int64 => false
    case UInt32 => false
    case UInt64 => false
    case Enum(values) => repeated || HalfTurn(values)
    case _ => true
  }

  /** All fields of the type, at any depth, are of such a kind. */
  predicate Ordered(s: Schema, ty: nat)
    requires Comparable(s, ty)
    decreases ty, 1
  {
    forall i :: 0 <= i < |s[ty]| ==> OrderedField(s, ty, i)
  }

  predicate OrderedField(s: Schema, ty: nat, i: nat)
    requires Comparable(s, ty) && i < |s[ty]|
    decreases ty, 0
  {
    assert ComparableField(s, ty, s[ty][i]);
    if s[ty][i].kind.Message? then Ordered(s, s[ty][i].kind.index)
    else OrderedKind(s[ty][i].kind, s[ty][i].repeated)
  }

  // ---- ranks: what such values are ordered by ----

  ghost function Pivot(values: seq<EnumValue>): int
    requires HalfTurn(values)
  {
    var p :| 0 <= p < |values| && HalfFrom(values, p);
    values[p].number
  }

  /** An enum number counts from the pivot of its enum. */
  ghost function RankAtom(k: Kind, v: Value): Atom
    requires OrderedKind(k, false) && ScalarOk(k, v)
  {
    if k.Enum? then IntAtom((v.n - Pivot(k.values)) % TWO32) else AtomOf(k, false, v)
  }

  ghost function RankSlot(s: Schema, ty: nat, i: nat, slot: Slot): seq<Atom>
    requires WfSchema(s) && Comparable(s, ty) && i < |s[ty]| && OrderedField(s, ty, i)
    requires WfField(|s|, s[ty][i]) && ComparableField(s, ty, s[ty][i]) && SlotOk(s, s[ty][i], slot)
    decreases ty, 0
  {
    var f := s[ty][i];
    if f.repeated then SlotKey(s, ty, f, slot)
    else if f.kind.Message? then RankFrom(s, f.kind.index, Read(s, f, slot).m, 0)
    else [RankAtom(f.kind, Read(s, f, slot))]
  }

  /** The ranks of the fields from i on, sub-messages in place. */
  ghost function RankFrom(s: Schema, ty: nat, m: Msg, i: nat): seq<Atom>
    requires WfSchema(s) && Comparable(s, ty) && WellTyped(s, ty, m) && i <= |s[ty]| && Ordered(s, ty)
    decreases ty, 1 + |s[ty]| - i
  {
    if i == |s[ty]| then []
    else
      assert WfDescriptor(|s|, s[ty]) && WfField(|s|, s[ty][i]) && ComparableField(s, ty, s[ty][i]);
      assert OrderedField(s, ty, i);
      RankSlot(s, ty, i, m.slots[i]) + RankFrom(s, ty, m, i + 1)
  }

  /** A number in range that is congruent modulo 2^32 is what narrowing gives. */
  lemma {:induction false} NarrowCongruent(n: int, d: int)
    requires -TWO31 < d < TWO31 && (n - d) % TWO32 == 0
    ensures Narrow(n) == d
  {
  }

  /** Numbers less than half a turn ahead of p compare as their distances from p. */
  lemma {:induction false} RankDifference(a: int, b: int, p: int)
    requires (a - p) % TWO32 < TWO31 && (b - p) % TWO32 < TWO31
    ensures Narrow(a - b) == (a - p) % TWO32 - (b - p) % TWO32
  {
    var x, y := (a - p) % TWO32, (b - p) % TWO32;
    var i, j := (a - p) / TWO32, (b - p) / TWO32;
    assert a - p == i * TWO32 + x && b - p == j * TWO32 + y;
    assert a - b - (x - y) == (i - j) * TWO32;
    NarrowCongruent(a - b, x - y);
  }

  lemma {:induction false} PivotAhead(values: seq<EnumValue>, a: int)
    requires HalfTurn(values) && FindByNumber(values, a) < |values|
    ensures (a - Pivot(values)) % TWO32 < TWO31
  {
    assert values[FindByNumber(values, a)].number == a;
  }

  lemma {:induction false} ScalarByRank(types: nat, k: Kind, a: Value, b: Value)
    requires WfKind(types, k) && OrderedKind(k, false) && ScalarOk(k, a) && ScalarOk(k, b)
    ensures Sign(CompareScalar(k, false, a, b)) == AtomCompare(RankAtom(k, a), RankAtom(k, b))
    ensures -TWO31 < CompareScalar(k, false, a, b) < TWO31
  {
    if k.Enum? {
      PivotAhead(k.values, a.n);
      PivotAhead(k.values, b.n);
      RankDifference(a.n, b.n, Pivot(k.values));
    } else if k.Bool? {
      NarrowNear(BoolInt(a.b) - BoolInt(b.b));
    }
  }

  lemma {:induction false} ListsByRank(types: nat, k: Kind, xs: seq<Value>, ys: seq<Value>)
    requires WfKind(types, k) && OrderedKind(k, true) && !k.Message?
    requires forall i :: 0 <= i < |xs| ==> ScalarOk(k, xs[i])
    requires forall i :: 0 <= i < |ys| ==> ScalarOk(k, ys[i])
    ensures Sign(CompareLists(k, xs, ys)) == LexCompare(ListKey(k, xs), ListKey(k, ys))
    ensures -TWO31 < CompareLists(k, xs, ys) < TWO31
    ensures Forked(ListKey(k, xs), ListKey(k, ys))
  {
    var x, y := ListKey(k, xs), ListKey(k, ys);
    ListsByKey(k, xs, ys);
    AlignedForked(x, y);
    FirstPairLaws(x, y);
    LexLaws(x, y, []);
    assert NearLists(k, xs, ys);
    NearListKeys(k, xs, ys);
    NearPairTold(FirstPair(x, y));
    if FirstPair(x, y).Some? {
      ToldNotMinimal(FirstPair(x, y));
    }
  }

  lemma {:induction false} SlotsByRank(s: Schema, ty: nat, i: nat, x: Slot, y: Slot)
    requires WfSchema(s) && Comparable(s, ty) && i < |s[ty]| && OrderedField(s, ty, i)
    requires WfField(|s|, s[ty][i]) && ComparableField(s, ty, s[ty][i])
    requires SlotOk(s, s[ty][i], x) && SlotOk(s, s[ty][i], y)
    ensures var c := CompareSlots(s, ty, s[ty][i], x, y);
            && Sign(c) == LexCompare(RankSlot(s, ty, i, x), RankSlot(s, ty, i, y))
            && -TWO31 < c < TWO31
    ensures Forked(RankSlot(s, ty, i, x), RankSlot(s, ty, i, y))
    decreases ty, 0
  {
    var f := s[ty][i];
    if f.repeated {
      assert forall j :: 0 <= j < |x.vs| ==> ValueOk(s, f.kind, x.vs[j]);
      assert forall j :: 0 <= j < |y.vs| ==> ValueOk(s, f.kind, y.vs[j]);
      ListsByRank(|s|, f.kind, x.vs, y.vs);
    } else if f.kind.Message? {
      MessagesByRank(s, f.kind.index, Read(s, f, x).m, Read(s, f, y).m, 0);
    } else {
      var a, b := Read(s, f, x), Read(s, f, y);
      ScalarByRank(|s|, f.kind, a, b);
      AtomLaws(RankAtom(f.kind, a), RankAtom(f.kind, b), End);
    }
  }

  /** In such a type `compare` is the lexicographic order of the ranks. */
  lemma {:induction false} MessagesByRank(s: Schema, ty: nat, a: Msg, b: Msg, i: nat)
    requires WfSchema(s) && Comparable(s, ty) && WellTyped(s, ty, a) && WellTyped(s, ty, b) && i <= |s[ty]|
    requires Ordered(s, ty)
    ensures Sign(CompareFrom(s, ty, a, b, i)) == LexCompare(RankFrom(s, ty, a, i), RankFrom(s, ty, b, i))
    ensures -TWO31 < CompareFrom(s, ty, a, b, i) < TWO31
    ensures Forked(RankFrom(s, ty, a, i), RankFrom(s, ty, b, i))
    decreases ty, 1 + |s[ty]| - i
  {
    if i < |s[ty]| {
      var f := s[ty][i];
      assert WfDescriptor(|s|, s[ty]) && WfField(|s|, f) && ComparableField(s, ty, f) && OrderedField(s, ty, i);
      assert SlotOk(s, f, a.slots[i]) && SlotOk(s, f, b.slots[i]);
      SlotsByRank(s, ty, i, a.slots[i], b.slots[i]);
      MessagesByRank(s, ty, a, b, i + 1);
      ForkedAppend(RankSlot(s, ty, i, a.slots[i]), RankFrom(s, ty, a, i + 1),
                   RankSlot(s, ty, i, b.slots[i]), RankFrom(s, ty, b, i + 1));
    }
  }

  // ---- a field that spoils the order ----

  function FirstBad(s: Schema, ty: nat, i: nat): (k: nat)
    requires Comparable(s, ty) && i <= |s[ty]|
    requires exists j :: i <= j < |s[ty]| && !OrderedField(s, ty, j)
    ensures i <= k < |s[ty]| && !OrderedField(s, ty, k)
    decreases |s[ty]| - i
  {
    if !OrderedField(s, ty, i) then i else FirstBad(s, ty, i + 1)
  }

  lemma {:induction false} HasBadField(s: Schema, ty: nat)
    requires Comparable(s, ty) && !Ordered(s, ty)
    ensures exists j :: 0 <= j < |s[ty]| && !OrderedField(s, ty, j)
  {
  }

  /** The kind of the first field, at whatever depth, whose values the comparer cannot order. */
  function Site(s: Schema, ty: nat): (site: (Kind, bool))
    requires WfSchema(s) && Comparable(s, ty) && !Ordered(s, ty)
    ensures WfKind(|s|, site.0) && !OrderedKind(site.0, site.1) && !site.0.Message?
    ensures site.0.Enum? ==> site.0.values != []
    decreases ty
  {
    HasBadField(s, ty);
    var f := s[ty][FirstBad(s, ty, 0)];
    assert WfDescriptor(|s|, s[ty]) && WfField(|s|, f) && ComparableField(s, ty, f);
    if f.kind.Message? then Site(s, f.kind.index) else (f.kind, f.repeated)
  }

  /** The message with nothing set but the value v in that field. */
  function SiteMessage(s: Schema, ty: nat, v: Value): (m: Msg)
    requires WfSchema(s) && Comparable(s, ty) && !Ordered(s, ty) && ScalarOk(Site(s, ty).0, v)
    ensures WellTyped(s, ty, m)
    decreases ty
  {
    HasBadField(s, ty);
    var i := FirstBad(s, ty, 0);
    var f := s[ty][i];
    assert WfDescriptor(|s|, s[ty]) && WfField(|s|, f) && ComparableField(s, ty, f);
    var value := if f.kind.Message? then Sub(SiteMessage(s, f.kind.index, v)) else v;
    assert ValueOk(s, f.kind, value);
    Msg(Empty(s, ty).slots[i := if f.repeated then Many([value]) else One(value)])
  }

  lemma {:induction false} SlotsSame(s: Schema, ty: nat, f: Field, x: Slot)
    requires WfSchema(s) && WfField(|s|, f) && ComparableField(s, ty, f) && SlotOk(s, f, x)
    ensures CompareSlots(s, ty, f, x, x) == 0
  {
    var k := SlotKey(s, ty, f, x);
    SlotsByKey(s, ty, f, x, x);
    AlignedForked(k, k);
    FirstPairLaws(k, k);
    LexLaws(k, k, []);
  }

  lemma {:induction false} OneElement(k: Kind, x: Value, y: Value)
    requires ScalarOk(k, x) && ScalarOk(k, y)
    ensures CompareLists(k, [x], [y]) == CompareScalar(k, true, x, y)
  {
    assert [x][1..] == [] && [y][1..] == [];
    assert CompareLists(k, [], []) == 0;
  }

  /** Two such messages compare as the two values. */
  lemma {:induction false} SiteCompare(s: Schema, ty: nat, x: Value, y: Value)
    requires WfSchema(s) && Comparable(s, ty) && !Ordered(s, ty)
    requires ScalarOk(Site(s, ty).0, x) && ScalarOk(Site(s, ty).0, y)
    ensures CompareFrom(s, ty, SiteMessage(s, ty, x), SiteMessage(s, ty, y), 0)
         == CompareScalar(Site(s, ty).0, Site(s, ty).1, x, y)
    decreases ty, |s|
  {
    HasBadField(s, ty);
    var i := FirstBad(s, ty, 0);
    var f := s[ty][i];
    var a, b := SiteMessage(s, ty, x), SiteMessage(s, ty, y);
    assert WfDescriptor(|s|, s[ty]) && WfField(|s|, f) && ComparableField(s, ty, f);
    assert SlotOk(s, f, a.slots[i]) && SlotOk(s, f, b.slots[i]);
    if f.kind.Message? {
      SiteCompare(s, f.kind.index, x, y);
    } else if f.repeated {
      OneElement(f.kind, x, y);
    }
    assert CompareSlots(s, ty, f, a.slots[i], b.slots[i]) == CompareScalar(Site(s, ty).0, Site(s, ty).1, x, y);
    OneFieldCompare(s, ty, a, b, i, 0);
  }

  /** Messages that differ in one field only compare as that field. */
  lemma {:induction false} OneFieldCompare(s: Schema, ty: nat, a: Msg, b: Msg, i: nat, j: nat)
    requires WfSchema(s) && Comparable(s, ty) && WellTyped(s, ty, a) && WellTyped(s, ty, b)
    requires i < |s[ty]| && j <= |s[ty]|
    requires forall k :: 0 <= k < |s[ty]| && k != i ==> a.slots[k] == b.slots[k]
    requires WfField(|s|, s[ty][i]) && ComparableField(s, ty, s[ty][i])
    requires SlotOk(s, s[ty][i], a.slots[i]) && SlotOk(s, s[ty][i], b.slots[i])
    ensures CompareFrom(s, ty, a, b, j)
         == if j <= i then CompareSlots(s, ty, s[ty][i], a.slots[i], b.slots[i]) else 0
    decreases |s[ty]| - j
  {
    if j < |s[ty]| {
      assert WfDescriptor(|s|, s[ty]) && WfField(|s|, s[ty][j]) && ComparableField(s, ty, s[ty][j]);
      assert SlotOk(s, s[ty][j], a.slots[j]) && SlotOk(s, s[ty][j], b.slots[j]);
      OneFieldCompare(s, ty, a, b, i, j + 1);
      if j != i {
        SlotsSame(s, ty, s[ty][j], a.slots[j]);
      }
    }
  }

  // ---- what the laws need ----

  /** Irreflexive, asymmetric, transitive, and incomparability is transitive. */
  predicate StrictWeak(s: Schema, ty: nat, a: Option<Msg>, b: Option<Msg>, c: Option<Msg>)
    requires Typed(s, ty, a) && Typed(s, ty, b) && Typed(s, ty, c)
  {
    && !Less(s, ty, a, a)
    && !(Less(s, ty, a, b) && Less(s, ty, b, a))
    && (Less(s, ty, a, b) && Less(s, ty, b, c) ==> Less(s, ty, a, c))
    && (!Less(s, ty, a, b) && !Less(s, ty, b, a) && !Less(s, ty, b, c) && !Less(s, ty, c, b)
        ==> !Less(s, ty, a, c) && !Less(s, ty, c, a))
  }

  /** `less` is a strict weak ordering on all messages of the type, null included. */
  ghost predicate LessIsOrder(s: Schema, ty: nat)
    requires WfSchema(s) && Comparable(s, ty)
  {
    forall a, b, c :: Typed(s, ty, a) && Typed(s, ty, b) && Typed(s, ty, c) ==> StrictWeak(s, ty, a, b, c)
  }

  /** The same for the messages that are not null. */
  ghost predicate LessOrdersMessages(s: Schema, ty: nat)
    requires WfSchema(s) && Comparable(s, ty)
  {
    forall a, b, c :: WellTyped(s, ty, a) && WellTyped(s, ty, b) && WellTyped(s, ty, c)
                      ==> StrictWeak(s, ty, Some(a), Some(b), Some(c))
  }

  predicate ScalarLaws(k: Kind, repeated: bool, x: Value, y: Value, z: Value)
    requires ScalarOk(k, x) && ScalarOk(k, y) && ScalarOk(k, z)
  {
    && !(CompareScalar(k, repeated, x, y) < 0 && CompareScalar(k, repeated, y, x) < 0)
    && (CompareScalar(k, repeated, x, y) < 0 && CompareScalar(k, repeated, y, z) < 0
        ==> CompareScalar(k, repeated, x, z) < 0)
  }

  /** The laws for the messages of one spoiling field are laws for its values. */
  lemma {:induction false} SiteLaws(s: Schema, ty: nat, x: Value, y: Value, z: Value)
    requires WfSchema(s) && Comparable(s, ty) && !Ordered(s, ty) && LessOrdersMessages(s, ty)
    requires ScalarOk(Site(s, ty).0, x) && ScalarOk(Site(s, ty).0, y) && ScalarOk(Site(s, ty).0, z)
    ensures ScalarLaws(Site(s, ty).0, Site(s, ty).1, x, y, z)
  {
    SiteCompare(s, ty, x, y);
    SiteCompare(s, ty, y, x);
    SiteCompare(s, ty, y, z);
    SiteCompare(s, ty, x, z);
    assert StrictWeak(s, ty, Some(SiteMessage(s, ty, x)), Some(SiteMessage(s, ty, y)), Some(SiteMessage(s, ty, z)));
  }

  /** Three values of an integer kind a third of a turn apart. */
  function Corner(k: Kind): int {
    if k.UInt32? || k.UInt64? then 3000000000 else 3000000000 - TWO32
  }

  lemma {:induction false} IntegersSpoil(s: Schema, ty: nat)
    requires WfSchema(s) && Comparable(s, ty) && !Ordered(s, ty)
    requires var k := Site(s, ty).0; k.Int32? || k.Int64? || k.UInt32? || k.UInt64?
    ensures !LessOrdersMessages(s, ty)
  {
    if LessOrdersMessages(s, ty) {
      var x, y, z := Num(0), Num(1500000000), Num(Corner(Site(s, ty).0));
      SiteLaws(s, ty, x, y, z);
      SiteLaws(s, ty, x, z, x);
    }
  }

  predicate NumberLess(x: int, y: int) {
    Narrow(x - y) < 0
  }

  predicate NumberLaws(x: int, y: int, z: int) {
    && !(NumberLess(x, y) && NumberLess(y, x))
    && (NumberLess(x, y) && NumberLess(y, z) ==> NumberLess(x, z))
  }

  lemma {:induction false} NumbersAhead(x: int, y: int)
    requires -TWO31 <= x < TWO31 && -TWO31 <= y < TWO31 && NumberLaws(x, y, x)
    ensures x != y ==> NumberLess(x, y) || NumberLess(y, x)
    ensures x == y || NumberLess(x, y) ==> (y - x) % TWO32 < TWO31
  {
  }

  /** Numbers that obey the laws have a least one, and from it the others lie less than half a turn ahead. */
  lemma {:induction false} LeastNumber(values: seq<EnumValue>, n: nat) returns (p: nat)
    requires 0 < n <= |values|
    requires forall i :: 0 <= i < |values| ==> -TWO31 <= values[i].number < TWO31
    requires forall i, j, l :: 0 <= i < |values| && 0 <= j < |values| && 0 <= l < |values|
                 ==> NumberLaws(values[i].number, values[j].number, values[l].number)
    ensures p < n
    ensures forall q :: 0 <= q < n ==>
              values[q].number == values[p].number || NumberLess(values[p].number, values[q].number)
  {
    p := 0;
    if n > 1 {
      p := LeastNumber(values, n - 1);
      var x, y := values[p].number, values[n - 1].number;
      assert NumberLaws(x, y, x);
      NumbersAhead(x, y);
      if x != y && !NumberLess(x, y) {
        forall q | 0 <= q < n - 1 ensures NumberLess(y, values[q].number) {
          assert NumberLaws(y, x, values[q].number);
        }
        p := n - 1;
      }
    }
  }

  predicate AllNumberLaws(values: seq<EnumValue>) {
    forall i, j, l :: 0 <= i < |values| && 0 <= j < |values| && 0 <= l < |values|
      ==> NumberLaws(values[i].number, values[j].number, values[l].number)
  }

  lemma {:induction false} LawsGiveHalfTurn(types: nat, values: seq<EnumValue>)
    requires WfKind(types, Enum(values)) && values != [] && AllNumberLaws(values)
    ensures HalfTurn(values)
  {
    var p := LeastNumber(values, |values|);
    forall q | 0 <= q < |values| ensures (values[q].number - values[p].number) % TWO32 < TWO31 {
      assert NumberLaws(values[p].number, values[q].number, values[p].number);
      NumbersAhead(values[p].number, values[q].number);
    }
    assert HalfFrom(values, p);
  }

  lemma {:induction false} EnumLaws(values: seq<EnumValue>, x: int, y: int, z: int)
    requires ScalarOk(Enum(values), Num(x)) && ScalarOk(Enum(values), Num(y)) && ScalarOk(Enum(values), Num(z))
    requires ScalarLaws(Enum(values), false, Num(x), Num(y), Num(z))
    ensures NumberLaws(x, y, z)
  {
  }

  lemma {:induction false} EnumSiteLaws(s: Schema, ty: nat, values: seq<EnumValue>, i: nat, j: nat, l: nat)
    requires WfSchema(s) && Comparable(s, ty) && !Ordered(s, ty) && LessOrdersMessages(s, ty)
    requires Site(s, ty) == (Enum(values), false)
    requires i < |values| && j < |values| && l < |values|
    ensures NumberLaws(values[i].number, values[j].number, values[l].number)
  {
    DeclaredNumber(values, i);
    DeclaredNumber(values, j);
    DeclaredNumber(values, l);
    SiteLaws(s, ty, Num(values[i].number), Num(values[j].number), Num(values[l].number));
    EnumLaws(values, values[i].number, values[j].number, values[l].number);
  }

  lemma {:induction false} EnumsSpoil(s: Schema, ty: nat)
    requires WfSchema(s) && Comparable(s, ty) && !Ordered(s, ty)
    requires Site(s, ty).0.Enum?
    ensures !LessOrdersMessages(s, ty)
  {
    var values := Site(s, ty).0.values;
    if LessOrdersMessages(s, ty) {
      forall i, j, l | 0 <= i < |values| && 0 <= j < |values| && 0 <= l < |values|
        ensures NumberLaws(values[i].number, values[j].number, values[l].number)
      {
        EnumSiteLaws(s, ty, values, i, j, l);
      }
      LawsGiveHalfTurn(|s|, values);
    }
  }

  lemma {:induction false} DeclaredNumber(values: seq<EnumValue>, i: nat)
    requires i < |values|
    ensures FindByNumber(values, values[i].number) < |values|
  {
  }

  // ---- the exact condition ----

  /** The rank of a message that may be null: null comes first. */
  ghost function RankOf(s: Schema, ty: nat, a: Option<Msg>): seq<Atom>
    requires Typed(s, ty, a) && Ordered(s, ty)
  {
    if a.None? then [] else [End] + RankFrom(s, ty, a.value, 0)
  }

  lemma {:induction false} CompareByRank(s: Schema, ty: nat, a: Option<Msg>, b: Option<Msg>)
    requires Typed(s, ty, a) && Typed(s, ty, b) && Ordered(s, ty)
    ensures Sign(CompareMessages(s, ty, a, b)) == LexCompare(RankOf(s, ty, a), RankOf(s, ty, b))
  {
    if a.Some? && b.Some? {
      var x, y := RankOf(s, ty, a), RankOf(s, ty, b);
      MessagesByRank(s, ty, a.value, b.value, 0);
      assert x[1..] == RankFrom(s, ty, a.value, 0) && y[1..] == RankFrom(s, ty, b.value, 0);
    }
  }

  lemma {:induction false} OrderedIsStrictWeak(s: Schema, ty: nat, a: Option<Msg>, b: Option<Msg>, c: Option<Msg>)
    requires Typed(s, ty, a) && Typed(s, ty, b) && Typed(s, ty, c) && Ordered(s, ty)
    ensures StrictWeak(s, ty, a, b, c)
  {
    CompareByRank(s, ty, a, a);
    CompareByRank(s, ty, a, b);
    CompareByRank(s, ty, b, a);
    CompareByRank(s, ty, b, c);
    CompareByRank(s, ty, c, b);
    CompareByRank(s, ty, a, c);
    CompareByRank(s, ty, c, a);
    var x, y, z := RankOf(s, ty, a), RankOf(s, ty, b), RankOf(s, ty, c);
    LexThree(x, x, x);
    LexThree(x, y, z);
    LexThree(y, z, x);
    LexThree(x, z, y);
  }

  lemma {:induction false} SpoiltIsNoOrder(s: Schema, ty: nat)
    requires WfSchema(s) && Comparable(s, ty) && !Ordered(s, ty)
    ensures !LessOrdersMessages(s, ty)
  {
    if Site(s, ty).0.Enum? {
      EnumsSpoil(s, ty);
    } else {
      IntegersSpoil(s, ty);
    }
  }

  lemma {:induction false} WithoutNull(s: Schema, ty: nat)
    requires WfSchema(s) && Comparable(s, ty)
    ensures LessIsOrder(s, ty) ==> LessOrdersMessages(s, ty)
  {
    assert forall a :: WellTyped(s, ty, a) ==> Typed(s, ty, Some(a));
  }

  /**
   `less` is a strict weak ordering on all messages of a type exactly if the type has, at any
   depth, no integer field and no singular enum field whose numbers do not fit in half a turn.
   */
  lemma {:induction false} LessIsOrderIff(s: Schema, ty: nat)
    requires WfSchema(s) && Comparable(s, ty)
    ensures LessIsOrder(s, ty) <==> Ordered(s, ty)
  {
    if Ordered(s, ty) {
      forall a, b, c | Typed(s, ty, a) && Typed(s, ty, b) && Typed(s, ty, c) ensures StrictWeak(s, ty, a, b, c) {
        OrderedIsStrictWeak(s, ty, a, b, c);
      }
    } else {
      SpoiltIsNoOrder(s, ty);
      WithoutNull(s, ty);
    }
  }

  // ---- orderless ----

  /** One column of ranks for each field. */
  ghost function RankColumns(s: Schema, ty: nat, m: Msg): (cs: seq<Column>)
    requires WfSchema(s) && Comparable(s, ty) && WellTyped(s, ty, m) && Ordered(s, ty)
    ensures |cs| == |s[ty]|
  {
    assert WfDescriptor(|s|, s[ty]);
    assert forall i :: 0 <= i < |s[ty]| ==>
                         WfField(|s|, s[ty][i]) && ComparableField(s, ty, s[ty][i]) && OrderedField(s, ty, i);
    assert forall i :: 0 <= i < |s[ty]| ==> SlotOk(s, s[ty][i], m.slots[i]);
    seq(|s[ty]|, i requires 0 <= i < |s[ty]| => RankSlot(s, ty, i, m.slots[i]))
  }

  lemma {:induction false} FieldByRank(s: Schema, ty: nat, a: Msg, b: Msg, i: nat)
    requires WfSchema(s) && Comparable(s, ty) && WellTyped(s, ty, a) && WellTyped(s, ty, b) && i < |s[ty]|
    requires Ordered(s, ty)
    requires WfField(|s|, s[ty][i]) && ComparableField(s, ty, s[ty][i])
    requires SlotOk(s, s[ty][i], a.slots[i]) && SlotOk(s, s[ty][i], b.slots[i])
    ensures var c := CompareSlots(s, ty, s[ty][i], a.slots[i], b.slots[i]);
            && Sign(c) == LexCompare(RankColumns(s, ty, a)[i], RankColumns(s, ty, b)[i])
            && Narrow(-c) == -c
  {
    assert OrderedField(s, ty, i);
    SlotsByRank(s, ty, i, a.slots[i], b.slots[i]);
    NarrowNear(-CompareSlots(s, ty, s[ty][i], a.slots[i], b.slots[i]));
  }

  /** One field of `orderless`, when its comparison has the sign of a comparison of columns and can be negated. */
  lemma {:induction false} OrderlessStep(
      s: Schema, ty: nat, flags: seq<bool>, a: Msg, b: Msg, i: nat, xs: seq<Column>, ys: seq<Column>)
    requires WfSchema(s) && Comparable(s, ty) && WellTyped(s, ty, a) && WellTyped(s, ty, b) && i < |s[ty]|
    requires WfField(|s|, s[ty][i]) && ComparableField(s, ty, s[ty][i])
    requires SlotOk(s, s[ty][i], a.slots[i]) && SlotOk(s, s[ty][i], b.slots[i])
    requires |xs| == |ys| == |s[ty]|
    requires var c := CompareSlots(s, ty, s[ty][i], a.slots[i], b.slots[i]);
             Sign(c) == LexCompare(xs[i], ys[i]) && Narrow(-c) == -c
    requires OrderlessFrom(s, ty, flags, a, b, i + 1) <==> ColumnCompare(flags, xs, ys, i + 1) < 0
    ensures OrderlessFrom(s, ty, flags, a, b, i) <==> ColumnCompare(flags, xs, ys, i) < 0
  {
  }

  lemma {:induction false} OrderlessByRank(s: Schema, ty: nat, flags: seq<bool>, a: Msg, b: Msg, i: nat)
    requires WfSchema(s) && Comparable(s, ty) && WellTyped(s, ty, a) && WellTyped(s, ty, b) && i <= |s[ty]|
    requires Ordered(s, ty)
    ensures OrderlessFrom(s, ty, flags, a, b, i)
       <==> ColumnCompare(flags, RankColumns(s, ty, a), RankColumns(s, ty, b), i) < 0
    decreases |s[ty]| - i
  {
    if i < |s[ty]| {
      assert WfDescriptor(|s|, s[ty]) && WfField(|s|, s[ty][i]) && ComparableField(s, ty, s[ty][i]);
      assert SlotOk(s, s[ty][i], a.slots[i]) && SlotOk(s, s[ty][i], b.slots[i]);
      FieldByRank(s, ty, a, b, i);
      OrderlessByRank(s, ty, flags, a, b, i + 1);
      OrderlessStep(s, ty, flags, a, b, i, RankColumns(s, ty, a), RankColumns(s, ty, b));
    }
  }

  predicate OrderlessStrictWeak(s: Schema, ty: nat, flags: seq<bool>, a: Msg, b: Msg, c: Msg)
    requires WfSchema(s) && Comparable(s, ty) && WellTyped(s, ty, a) && WellTyped(s, ty, b) && WellTyped(s, ty, c)
  {
    && !OrderlessFrom(s, ty, flags, a, a, 0)
    && !(OrderlessFrom(s, ty, flags, a, b, 0) && OrderlessFrom(s, ty, flags, b, a, 0))
    && (OrderlessFrom(s, ty, flags, a, b, 0) && OrderlessFrom(s, ty, flags, b, c, 0)
        ==> OrderlessFrom(s, ty, flags, a, c, 0))
    && (!OrderlessFrom(s, ty, flags, a, b, 0) && !OrderlessFrom(s, ty, flags, b, a, 0)
        && !OrderlessFrom(s, ty, flags, b, c, 0) && !OrderlessFrom(s, ty, flags, c, b, 0)
        ==> !OrderlessFrom(s, ty, flags, a, c, 0) && !OrderlessFrom(s, ty, flags, c, a, 0))
  }

  /** `orderless` is a strict weak ordering on the messages of the type, whatever the flags. */
  ghost predicate OrderlessIsOrder(s: Schema, ty: nat)
    requires WfSchema(s) && Comparable(s, ty)
  {
    forall flags: seq<bool>, a, b, c :: WellTyped(s, ty, a) && WellTyped(s, ty, b) && WellTyped(s, ty, c)
                                        ==> OrderlessStrictWeak(s, ty, flags, a, b, c)
  }

  lemma {:induction false} OrderedOrderless(s: Schema, ty: nat, flags: seq<bool>, a: Msg, b: Msg, c: Msg)
    requires WfSchema(s) && Comparable(s, ty) && WellTyped(s, ty, a) && WellTyped(s, ty, b) && WellTyped(s, ty, c)
    requires Ordered(s, ty)
    ensures OrderlessStrictWeak(s, ty, flags, a, b, c)
  {
    var x, y, z := RankColumns(s, ty, a), RankColumns(s, ty, b), RankColumns(s, ty, c);
    OrderlessByRank(s, ty, flags, a, a, 0);
    OrderlessByRank(s, ty, flags, a, b, 0);
    OrderlessByRank(s, ty, flags, b, a, 0);
    OrderlessByRank(s, ty, flags, b, c, 0);
    OrderlessByRank(s, ty, flags, c, b, 0);
    OrderlessByRank(s, ty, flags, a, c, 0);
    OrderlessByRank(s, ty, flags, c, a, 0);
    ColumnLaws(flags, x, x, x, 0);
    ColumnThree(flags, x, y, z);
  }

  lemma {:induction false} ColumnThree(flags: seq<bool>, x: seq<Column>, y: seq<Column>, z: seq<Column>)
    requires |x| == |y| == |z|
    ensures ColumnCompare(flags, y, x, 0) == -ColumnCompare(flags, x, y, 0)
    ensures ColumnCompare(flags, z, y, 0) == -ColumnCompare(flags, y, z, 0)
    ensures ColumnCompare(flags, z, x, 0) == -ColumnCompare(flags, x, z, 0)
    ensures ColumnCompare(flags, x, y, 0) < 0 && ColumnCompare(flags, y, z, 0) < 0
        ==> ColumnCompare(flags, x, z, 0) < 0
    ensures ColumnCompare(flags, x, y, 0) == 0 && ColumnCompare(flags, y, z, 0) == 0
        ==> ColumnCompare(flags, x, z, 0) == 0
  {
    ColumnLaws(flags, x, y, z, 0);
    ColumnLaws(flags, y, z, x, 0);
    ColumnLaws(flags, x, z, y, 0);
    ColumnLaws(flags, z, x, y, 0);
    assert x[0..] == x && y[0..] == y && z[0..] == z;
  }

  lemma {:induction false} WithoutFlags(s: Schema, ty: nat)
    requires WfSchema(s) && Comparable(s, ty) && OrderlessIsOrder(s, ty)
    ensures LessOrdersMessages(s, ty)
  {
    forall a, b, c | WellTyped(s, ty, a) && WellTyped(s, ty, b) && WellTyped(s, ty, c)
      ensures StrictWeak(s, ty, Some(a), Some(b), Some(c))
    {
      assert OrderlessStrictWeak(s, ty, [], a, b, c);
      OrderlessAscending(s, ty, [], a, a, 0);
      OrderlessAscending(s, ty, [], a, b, 0);
      OrderlessAscending(s, ty, [], b, a, 0);
      OrderlessAscending(s, ty, [], b, c, 0);
      OrderlessAscending(s, ty, [], c, b, 0);
      OrderlessAscending(s, ty, [], a, c, 0);
      OrderlessAscending(s, ty, [], c, a, 0);
    }
  }

  /** `orderless` is one on the messages of a type, whatever the flags, exactly if `less` is. */
  lemma {:induction false} OrderlessIsOrderIff(s: Schema, ty: nat)
    requires WfSchema(s) && Comparable(s, ty)
    ensures OrderlessIsOrder(s, ty) <==> Ordered(s, ty)
  {
    if Ordered(s, ty) {
      forall flags: seq<bool>, a, b, c | WellTyped(s, ty, a) && WellTyped(s, ty, b) && WellTyped(s, ty, c)
        ensures OrderlessStrictWeak(s, ty, flags, a, b, c)
      {
        OrderedOrderless(s, ty, flags, a, b, c);
      }
    } else {
      SpoiltIsNoOrder(s, ty);
      if OrderlessIsOrder(s, ty) {
        WithoutFlags(s, ty);
      }
    }
  }
}
