/** The hash code is a polynomial, detects a single differing field, and respects equality. */
module HashLaws {
  import opened Options
  import opened Schema
  import opened Compare
  import opened CompareOrder
  import opened CompareLaws
  import opened CompareExact
  import opened Hash

  // ---- arithmetic modulo 2^64 ----

  lemma {:induction false} ModPlusMultiple(n: int, k: int)
    ensures (n + k * TWO64) % TWO64 == n % TWO64
  {
    var m := n + k * TWO64;
    assert m == (n / TWO64 + k) * TWO64 + n % TWO64 by {
      assert (n / TWO64 + k) * TWO64 == (n / TWO64) * TWO64 + k * TWO64;
    }
  }

  lemma {:induction false} ModStep(x: int, y: int, p: int, r: int)
    requires x % TWO64 == y % TWO64
    ensures (x * p + r) % TWO64 == (y * p + r) % TWO64
  {
    var q := x / TWO64 - y / TWO64;
    assert x == y + q * TWO64;
    assert x * p + r == y * p + r + (q * p) * TWO64 by {
      assert x * p == y * p + (q * TWO64) * p;
      assert (q * TWO64) * p == (q * p) * TWO64;
    }
    ModPlusMultiple(y * p + r, q * p);
  }

  // ---- the hash as a polynomial ----

  function Power(b: int, n: nat): int {
    if n == 0 then 1 else b * Power(b, n - 1)
  }

  /** parts[0] * 99989^(n-1) + ... + parts[n-1], without any bound. */
  function Polynomial(parts: seq<int>): int {
    if parts == [] then 0 else parts[0] * Power(99989, |parts| - 1) + Polynomial(parts[1..])
  }

  lemma {:induction false} Distribute(acc: int, part: int, p: int)
    ensures (acc * 99989 + part) * p == acc * (99989 * p) + part * p
  {
  }

  /** The accumulating loop computes the polynomial modulo 2^64. */
  lemma {:induction false} HornerIsPolynomial(acc: int, parts: seq<int>)
    ensures Horner(acc, parts) % TWO64 == (acc * Power(99989, |parts|) + Polynomial(parts)) % TWO64
    decreases parts
  {
    if parts != [] {
      var p := Power(99989, |parts| - 1);
      HornerIsPolynomial(Step(acc, parts[0]), parts[1..]);
      ModStep(Step(acc, parts[0]), acc * 99989 + parts[0], p, Polynomial(parts[1..]));
      Distribute(acc, parts[0], p);
    }
  }

  // ---- the multiplier can be undone ----

  /** 99989 is odd, so it has an inverse modulo 2^64. */
  const INVERSE: int := 14155559371847505085

  lemma {:induction false} UndoStep(x: int, part: int)
    requires 0 <= x < TWO64
    ensures ((x * PRIME + part) * INVERSE + -part * INVERSE) % TWO64 == x
  {
    var k := PRIME * INVERSE / TWO64;
    assert PRIME * INVERSE == k * TWO64 + 1;
    assert (x * PRIME + part) * INVERSE + -part * INVERSE == x * (PRIME * INVERSE);
    assert x * (PRIME * INVERSE) == x + (x * k) * TWO64;
    ModPlusMultiple(x, x * k);
  }

  /** A round loses nothing of the accumulator. */
  lemma {:induction false} StepInjective(x: int, y: int, part: int)
    requires 0 <= x < TWO64 && 0 <= y < TWO64
    requires Step(x, part) == Step(y, part)
    ensures x == y
  {
    ModStep(x * PRIME + part, y * PRIME + part, INVERSE, -part * INVERSE);
    UndoStep(x, part);
    UndoStep(y, part);
  }

  /** Different accumulators stay different, whatever parts follow. */
  lemma {:induction false} HornerInjective(x: int, y: int, parts: seq<int>)
    requires 0 <= x < TWO64 && 0 <= y < TWO64
    requires Horner(x, parts) == Horner(y, parts)
    ensures x == y
    decreases parts
  {
    if parts != [] {
      HornerInjective(Step(x, parts[0]), Step(y, parts[0]), parts[1..]);
      StepInjective(x, y, parts[0]);
    }
  }

  /** Two lists of parts that differ in exactly one position, whichever it is, hash differently. */
  lemma {:induction false} OnePartDiffers(acc: int, xs: seq<int>, ys: seq<int>, i: nat)
    requires |xs| == |ys| && i < |xs|
    requires forall j :: 0 <= j < |xs| && j != i ==> xs[j] == ys[j]
    requires 0 <= xs[i] < TWO64 && 0 <= ys[i] < TWO64 && xs[i] != ys[i]
    ensures Horner(acc, xs) != Horner(acc, ys)
    decreases xs
  {
    if i == 0 {
      FirstPartDiffers(acc, xs, ys);
    } else {
      TailsDifferAt(xs, ys, i);
      OnePartDiffers(Step(acc, xs[0]), xs[1..], ys[1..], i - 1);
    }
  }

  lemma {:induction false} FirstPartDiffers(acc: int, xs: seq<int>, ys: seq<int>)
    requires |xs| == |ys| > 0 && forall j :: 1 <= j < |xs| ==> xs[j] == ys[j]
    requires 0 <= xs[0] < TWO64 && 0 <= ys[0] < TWO64 && xs[0] != ys[0]
    ensures Horner(acc, xs) != Horner(acc, ys)
  {
    assert xs[1..] == ys[1..];
    var x, y := Step(acc, xs[0]), Step(acc, ys[0]);
    if x == y {
      StepTellsParts(acc, xs[0], ys[0]);
    }
    if Horner(x, xs[1..]) == Horner(y, xs[1..]) {
      HornerInjective(x, y, xs[1..]);
    }
  }

  lemma {:induction false} StepTellsParts(acc: int, p: int, q: int)
    requires 0 <= p < TWO64 && 0 <= q < TWO64 && Step(acc, p) == Step(acc, q)
    ensures p == q
  {
    SumTellsParts(acc * PRIME, p, q);
  }

  lemma {:induction false} SumTellsParts(a: int, p: int, q: int)
    requires 0 <= p < TWO64 && 0 <= q < TWO64 && (a + p) % TWO64 == (a + q) % TWO64
    ensures p == q
  {
    var k := (a + p) / TWO64 - (a + q) / TWO64;
    assert p - q == k * TWO64;
  }

  lemma {:induction false} TailsDifferAt(xs: seq<int>, ys: seq<int>, i: nat)
    requires |xs| == |ys| && 0 < i < |xs|
    requires forall j :: 0 <= j < |xs| && j != i ==> xs[j] == ys[j]
    ensures xs[0] == ys[0] && xs[1..][i - 1] == xs[i] && ys[1..][i - 1] == ys[i]
    ensures forall j :: 0 <= j < |xs| - 1 && j != i - 1 ==> xs[1..][j] == ys[1..][j]
  {
  }

  lemma {:induction false} HornerInRange(acc: int, parts: seq<int>)
    requires 0 <= acc < TWO64
    ensures 0 <= Horner(acc, parts) < TWO64
    decreases parts
  {
    if parts != [] {
      HornerInRange(Step(acc, parts[0]), parts[1..]);
    }
  }

  lemma {:induction false} FieldHashInRange(h: Hasher, s: Schema, ty: nat, f: Field, slot: Slot)
    requires WfSchema(s) && WfField(|s|, f) && LayeredField(s, ty, f) && SlotOk(s, f, slot)
    ensures 0 <= FieldHash(h, s, ty, f, slot) < TWO64
  {
    if f.repeated {
      HornerInRange(0, ElementHashes(h, s, ty, f, slot.vs));
    } else if f.kind.Message? {
      assert ValueOk(s, f.kind, Read(s, f, slot));
      HornerInRange(SEED, FieldHashes(h, s, f.kind.index, Read(s, f, slot).m));
    }
  }

  /** Two messages of one type whose field hashes differ in exactly one field have different hash codes. */
  lemma {:induction false} OneFieldDiffers(h: Hasher, s: Schema, ty: nat, a: Msg, b: Msg, i: nat)
    requires WfSchema(s) && Layered(s, ty) && WellTyped(s, ty, a) && WellTyped(s, ty, b) && i < |s[ty]|
    requires forall j :: 0 <= j < |s[ty]| && j != i
                 ==> FieldHashes(h, s, ty, a)[j] == FieldHashes(h, s, ty, b)[j]
    requires FieldHashes(h, s, ty, a)[i] != FieldHashes(h, s, ty, b)[i]
    ensures HashMessage(h, s, ty, a) != HashMessage(h, s, ty, b)
  {
    assert WfDescriptor(|s|, s[ty]) && WfField(|s|, s[ty][i]) && LayeredField(s, ty, s[ty][i]);
    assert SlotOk(s, s[ty][i], a.slots[i]) && SlotOk(s, s[ty][i], b.slots[i]);
    FieldHashInRange(h, s, ty, s[ty][i], a.slots[i]);
    FieldHashInRange(h, s, ty, s[ty][i], b.slots[i]);
    OnePartDiffers(SEED, FieldHashes(h, s, ty, a), FieldHashes(h, s, ty, b), i);
  }

  // ---- the codes in numbers ----

  /** The hash code of a message with n fields: 41 * 99989^n + field_0 * 99989^(n-1) + ... + field_(n-1), modulo 2^64. */
  lemma {:induction false} MessageIsPolynomial(h: Hasher, s: Schema, ty: nat, m: Msg)
    requires WfSchema(s) && Layered(s, ty) && WellTyped(s, ty, m)
    ensures HashMessage(h, s, ty, m)
         == (41 * Power(99989, |s[ty]|) + Polynomial(FieldHashes(h, s, ty, m))) % 0x1_0000_0000_0000_0000
  {
    HornerIsPolynomial(SEED, FieldHashes(h, s, ty, m));
    HornerInRange(SEED, FieldHashes(h, s, ty, m));
  }

  /** The hash of a repeated field with n elements: element_0 * 99989^(n-1) + ... + element_(n-1), modulo 2^64. */
  lemma {:induction false} ListIsPolynomial(h: Hasher, s: Schema, ty: nat, f: Field, vs: seq<Value>)
    requires WfSchema(s) && WfField(|s|, f) && LayeredField(s, ty, f) && f.repeated && SlotOk(s, f, Many(vs))
    ensures FieldHash(h, s, ty, f, Many(vs))
         == Polynomial(ElementHashes(h, s, ty, f, vs)) % 0x1_0000_0000_0000_0000
  {
    HornerIsPolynomial(0, ElementHashes(h, s, ty, f, vs));
    HornerInRange(0, ElementHashes(h, s, ty, f, vs));
  }

  /**
   The hash of one value: of a message its hash code, of a repeated enum the hash of the
   descriptor pointer, that is, of the position of the first value with its number, else what
   the library gives.
   */
  predicate HashesTo(h: Hasher, s: Schema, ty: nat, f: Field, v: Value, code: int)
    requires WfSchema(s) && LayeredField(s, ty, f) && ValueOk(s, f.kind, v)
  {
    match f.kind
    case Message(index) => code == HashMessage(h, s, index, v.m)
    case Enum(values) =>
      if f.repeated then
        exists i :: 0 <= i < |values| && values[i].number == v.n && (forall j :: 0 <= j < i ==> values[j].number != v.n)
                    && code == h.pointer(f.kind, i) % 0x1_0000_0000_0000_0000
      else code == h.scalar(f.kind, v) % 0x1_0000_0000_0000_0000
    case _ => code == h.scalar(f.kind, v) % 0x1_0000_0000_0000_0000
  }

  lemma {:induction false} ElementHashesTo(h: Hasher, s: Schema, ty: nat, f: Field, vs: seq<Value>, i: nat)
    requires WfSchema(s) && WfField(|s|, f) && LayeredField(s, ty, f) && f.repeated && SlotOk(s, f, Many(vs))
    requires i < |vs| && ValueOk(s, f.kind, vs[i])
    ensures HashesTo(h, s, ty, f, vs[i], ElementHashes(h, s, ty, f, vs)[i])
    ensures 0 <= ElementHashes(h, s, ty, f, vs)[i] < TWO64
  {
    match f.kind
    case Message(index) =>
      HornerInRange(SEED, FieldHashes(h, s, index, vs[i].m));
    case Enum(values) =>
      var j := FindByNumber(values, vs[i].n);
      assert values[j].number == vs[i].n;
    case _ =>
  }

  lemma {:induction false} OneCode(h: Hasher, s: Schema, ty: nat, f: Field, v: Value, c: int, d: int)
    requires WfSchema(s) && LayeredField(s, ty, f) && ValueOk(s, f.kind, v)
    requires HashesTo(h, s, ty, f, v, c) && HashesTo(h, s, ty, f, v, d)
    ensures c == d
  {
  }

  /** Lists that differ at one position, whose two values there hash differently, give the field different hashes. */
  lemma {:induction false} OneElementDiffers(
      h: Hasher, s: Schema, ty: nat, f: Field, xs: seq<Value>, ys: seq<Value>, i: nat, c: int, d: int)
    requires WfSchema(s) && WfField(|s|, f) && LayeredField(s, ty, f) && f.repeated
    requires SlotOk(s, f, Many(xs)) && SlotOk(s, f, Many(ys))
    requires i < |xs| == |ys| && forall j :: 0 <= j < |xs| && j != i ==> xs[j] == ys[j]
    requires ValueOk(s, f.kind, xs[i]) && ValueOk(s, f.kind, ys[i])
    requires HashesTo(h, s, ty, f, xs[i], c) && HashesTo(h, s, ty, f, ys[i], d) && c != d
    ensures FieldHash(h, s, ty, f, Many(xs)) != FieldHash(h, s, ty, f, Many(ys))
  {
    var x, y := ElementHashes(h, s, ty, f, xs), ElementHashes(h, s, ty, f, ys);
    ElementHashesTo(h, s, ty, f, xs, i);
    ElementHashesTo(h, s, ty, f, ys, i);
    OneCode(h, s, ty, f, xs[i], c, x[i]);
    OneCode(h, s, ty, f, ys[i], d, y[i]);
    forall j | 0 <= j < |x| && j != i ensures x[j] == y[j] {
      assert ValueOk(s, f.kind, xs[j]) && ValueOk(s, f.kind, ys[j]);
    }
    OnePartDiffers(0, x, y, i);
  }

  /** Singular fields: values that hash differently give the field different hashes, set or read as the default. */
  lemma {:induction false} OneValueDiffers(h: Hasher, s: Schema, ty: nat, f: Field, x: Slot, y: Slot, v: Value, w: Value, c: int, d: int)
    requires WfSchema(s) && WfField(|s|, f) && LayeredField(s, ty, f) && !f.repeated
    requires SlotOk(s, f, x) && SlotOk(s, f, y) && ValueOk(s, f.kind, v) && ValueOk(s, f.kind, w)
    requires x == One(v) || (x == Unset && v == if f.kind.Message? then Sub(Empty(s, f.kind.index)) else f.default)
    requires y == One(w) || (y == Unset && w == if f.kind.Message? then Sub(Empty(s, f.kind.index)) else f.default)
    requires HashesTo(h, s, ty, f, v, c) && HashesTo(h, s, ty, f, w, d) && c != d
    ensures FieldHash(h, s, ty, f, x) != FieldHash(h, s, ty, f, y)
  {
  }

  /** Every value counts: messages that differ in one field, there in one value, which hashes differently, hash differently. */
  lemma {:induction false} EveryValueCounts(
      h: Hasher, s: Schema, ty: nat, a: Msg, b: Msg, i: nat, x: Value, y: Value, p: nat, c: int, d: int)
    requires WfSchema(s) && Layered(s, ty) && WellTyped(s, ty, a) && WellTyped(s, ty, b) && i < |s[ty]|
    requires forall j :: 0 <= j < |s[ty]| && j != i ==> a.slots[j] == b.slots[j]
    requires LayeredField(s, ty, s[ty][i]) && ValueOk(s, s[ty][i].kind, x) && ValueOk(s, s[ty][i].kind, y)
    requires if s[ty][i].repeated
             then && a.slots[i].Many? && b.slots[i].Many? && p < |a.slots[i].vs| && a.slots[i].vs[p] == x
                  && b.slots[i].vs == a.slots[i].vs[p := y]
             else a.slots[i] == One(x) && b.slots[i] == One(y)
    requires HashesTo(h, s, ty, s[ty][i], x, c) && HashesTo(h, s, ty, s[ty][i], y, d) && c != d
    ensures HashMessage(h, s, ty, a) != HashMessage(h, s, ty, b)
  {
    var f := s[ty][i];
    assert WfDescriptor(|s|, s[ty]) && WfField(|s|, f);
    assert SlotOk(s, f, a.slots[i]) && SlotOk(s, f, b.slots[i]);
    if f.repeated {
      OneElementDiffers(h, s, ty, f, a.slots[i].vs, b.slots[i].vs, p, c, d);
    } else {
      OneValueDiffers(h, s, ty, f, a.slots[i], b.slots[i], x, y, c, d);
    }
    OneFieldDiffers(h, s, ty, a, b, i);
  }

  // ---- equal messages hash alike ----

  lemma {:induction false} ComparableIsLayered(s: Schema, ty: nat)
    requires Comparable(s, ty)
    ensures Layered(s, ty)
    decreases ty
  {
    forall i | 0 <= i < |s[ty]| ensures LayeredField(s, ty, s[ty][i]) {
      assert ComparableField(s, ty, s[ty][i]);
      if s[ty][i].kind.Message? {
        ComparableIsLayered(s, s[ty][i].kind.index);
      }
    }
  }

  lemma {:induction false} SameSlotsHash(h: Hasher, s: Schema, ty: nat, f: Field, x: Slot, y: Slot)
    requires WfSchema(s) && WfField(|s|, f) && ComparableField(s, ty, f) && SlotOk(s, f, x) && SlotOk(s, f, y)
    requires LayeredField(s, ty, f)
    requires SameSlots(s, ty, f, x, y)
    ensures FieldHash(h, s, ty, f, x) == FieldHash(h, s, ty, f, y)
    decreases ty, 0
  {
    if !f.repeated && f.kind.Message? {
      assert ValueOk(s, f.kind, Read(s, f, x)) && ValueOk(s, f.kind, Read(s, f, y));
      SameReadingHash(h, s, f.kind.index, Read(s, f, x).m, Read(s, f, y).m);
    }
  }

  lemma {:induction false} SameFromField(s: Schema, ty: nat, a: Msg, b: Msg, i: nat, j: nat)
    requires WfSchema(s) && Comparable(s, ty) && WellTyped(s, ty, a) && WellTyped(s, ty, b)
    requires i <= j < |s[ty]| && SameFrom(s, ty, a, b, i)
    requires WfField(|s|, s[ty][j]) && ComparableField(s, ty, s[ty][j])
    requires SlotOk(s, s[ty][j], a.slots[j]) && SlotOk(s, s[ty][j], b.slots[j])
    ensures SameSlots(s, ty, s[ty][j], a.slots[j], b.slots[j])
    decreases j - i
  {
    if i < j {
      SameFromField(s, ty, a, b, i + 1, j);
    }
  }

  /** Messages that read the same have the same hash code. */
  lemma {:induction false} SameReadingHash(h: Hasher, s: Schema, ty: nat, a: Msg, b: Msg)
    requires WfSchema(s) && Comparable(s, ty) && WellTyped(s, ty, a) && WellTyped(s, ty, b)
    requires Layered(s, ty)
    requires SameFrom(s, ty, a, b, 0)
    ensures HashMessage(h, s, ty, a) == HashMessage(h, s, ty, b)
    decreases ty, 1
  {
    var xs, ys := FieldHashes(h, s, ty, a), FieldHashes(h, s, ty, b);
    assert WfDescriptor(|s|, s[ty]);
    forall i | 0 <= i < |s[ty]| ensures xs[i] == ys[i] {
      assert WfField(|s|, s[ty][i]) && ComparableField(s, ty, s[ty][i]) && LayeredField(s, ty, s[ty][i]);
      assert SlotOk(s, s[ty][i], a.slots[i]) && SlotOk(s, s[ty][i], b.slots[i]);
      SameFromField(s, ty, a, b, 0, i);
      SameSlotsHash(h, s, ty, s[ty][i], a.slots[i], b.slots[i]);
    }
    assert xs == ys;
  }

  /** Where values are told apart, messages that compare equal have equal hash codes. */
  lemma {:induction false} EqualMessagesHashAlike(h: Hasher, s: Schema, ty: nat, a: Msg, b: Msg)
    requires Typed(s, ty, Some(a)) && Typed(s, ty, Some(b)) && ToldApart(s, ty, Some(a), Some(b))
    requires CompareMessages(s, ty, Some(a), Some(b)) == 0
    ensures Layered(s, ty) && HashMessage(h, s, ty, a) == HashMessage(h, s, ty, b)
  {
    ComparableIsLayered(s, ty);
    EqualIsSameReading(s, ty, a, b);
    SameReadingHash(h, s, ty, a, b);
  }

  /**
   Outside the window the contract breaks: two int64 messages 2^32 apart compare equal, and
   every hasher that tells the two numbers apart gives them different hash codes.
   */
  lemma {:induction false} EqualMessagesHashApart(h: Hasher)
    requires h.scalar(Int64, Num(0)) % TWO64 != h.scalar(Int64, Num(TWO32)) % TWO64
    ensures var s := OneField(Int64);
            var a, b := OneValue(0), OneValue(TWO32);
            && Typed(s, 0, Some(a)) && Typed(s, 0, Some(b)) && Layered(s, 0)
            && CompareMessages(s, 0, Some(a), Some(b)) == 0
            && HashMessage(h, s, 0, a) != HashMessage(h, s, 0, b)
  {
    var s, a, b := OneField(Int64), OneValue(0), OneValue(TWO32);
    EqualOutsideWindow();
    ComparableIsLayered(s, 0);
    OneFieldDiffers(h, s, 0, a, b, 0);
  }

  // ---- for which types the contract needs no window ----

  /** The contract of map keys for all messages of a type and all hash functions of the library. */
  ghost predicate HashRespectsEquality(s: Schema, ty: nat)
    requires WfSchema(s) && Comparable(s, ty) && Layered(s, ty)
  {
    forall h, a, b :: WellTyped(s, ty, a) && WellTyped(s, ty, b) && CompareMessages(s, ty, Some(a), Some(b)) == 0
                      ==> HashMessage(h, s, ty, a) == HashMessage(h, s, ty, b)
  }

  /** A hasher that tells small numbers apart. */
  function Identity(): Hasher {
    Hasher((k: Kind, v: Value) => if v.Num? then v.n else 0, (k: Kind, i: nat) => i)
  }

  lemma {:induction false} OneElementHash(s: Schema, ty: nat, f: Field, n: int)
    requires WfSchema(s) && WfField(|s|, f) && LayeredField(s, ty, f) && IsWide(f.kind) && f.repeated
    requires ScalarOk(f.kind, Num(n)) && 0 <= n < TWO64
    ensures FieldHash(Identity(), s, ty, f, Many([Num(n)])) == n
  {
    assert ValueOk(s, f.kind, Num(n));
    var parts := ElementHashes(Identity(), s, ty, f, [Num(n)]);
    assert parts[0] == n && parts[1..] == [];
    assert Horner(0, parts) == Horner(Step(0, n), []);
  }

  lemma {:induction false} WideSlotsHash(s: Schema, ty: nat, f: Field)
    requires WfSchema(s) && WfField(|s|, f) && ComparableField(s, ty, f) && LayeredField(s, ty, f)
    requires IsWide(f.kind) || (f.kind.Message? && Wide(s, f.kind.index))
    ensures FieldHash(Identity(), s, ty, f, WideSlot(s, ty, f, 0))
         != FieldHash(Identity(), s, ty, f, WideSlot(s, ty, f, TWO32))
    decreases ty, 0
  {
    if f.kind.Message? {
      WideMessagesHash(s, f.kind.index);
    } else if f.repeated {
      OneElementHash(s, ty, f, 0);
      OneElementHash(s, ty, f, TWO32);
    } else {
      assert Identity().scalar(f.kind, Num(0)) == 0 && Identity().scalar(f.kind, Num(TWO32)) == TWO32;
    }
  }

  lemma {:induction false} WideMessagesHash(s: Schema, ty: nat)
    requires WfSchema(s) && Comparable(s, ty) && Layered(s, ty) && Wide(s, ty)
    ensures HashMessage(Identity(), s, ty, WideMessage(s, ty, 0))
         != HashMessage(Identity(), s, ty, WideMessage(s, ty, TWO32))
    decreases ty, 1
  {
    var a, b := WideMessage(s, ty, 0), WideMessage(s, ty, TWO32);
    WideHasField(s, ty);
    var i := FirstWide(s, ty, 0);
    assert WfDescriptor(|s|, s[ty]) && WfField(|s|, s[ty][i]);
    assert ComparableField(s, ty, s[ty][i]) && LayeredField(s, ty, s[ty][i]);
    WideSlotsHash(s, ty, s[ty][i]);
    assert forall j :: 0 <= j < |s[ty]| && j != i ==> a.slots[j] == b.slots[j];
    OneFieldDiffers(Identity(), s, ty, a, b, i);
  }

  /** It holds without any window exactly if the type has no 64-bit integer at any depth. */
  lemma {:induction false} HashRespectsEqualityIffNarrow(s: Schema, ty: nat)
    requires WfSchema(s) && Comparable(s, ty)
    ensures Layered(s, ty)
    ensures HashRespectsEquality(s, ty) <==> !Wide(s, ty)
  {
    ComparableIsLayered(s, ty);
    if Wide(s, ty) {
      var a, b := WideMessage(s, ty, 0), WideMessage(s, ty, TWO32);
      WideCongruent(s, ty, 0);
      ZeroIsCongruent(s, ty, a, b, 0);
      WideMessagesHash(s, ty);
    } else {
      EqualsIsRightIffNarrow(s, ty);
      forall h, a, b | WellTyped(s, ty, a) && WellTyped(s, ty, b) && CompareMessages(s, ty, Some(a), Some(b)) == 0
        ensures HashMessage(h, s, ty, a) == HashMessage(h, s, ty, b)
      {
        SameReadingHash(h, s, ty, a, b);
      }
    }
  }
}
