/**
 Printing a message and parsing the text into a target merges the message into the target.
 `Canon` says what the text keeps of a message, `Exact` when that is everything.
 */
module JsonMerge {
  import opened Schema
  import opened JsonText
  import opened JsonMessage

  // ---- protobuf merge ----

  /** Set singular scalars of m overwrite, sub-messages merge, repeated fields are appended. */
  function Merge(s: Schema, ty: nat, t: Msg, m: Msg): (r: Msg)
    requires WfSchema(s) && WellTyped(s, ty, t) && WellTyped(s, ty, m)
    ensures WellTyped(s, ty, r)
    decreases m
  {
    Msg(seq(|m.slots|, i requires 0 <= i < |m.slots| => MergeSlot(s, s[ty][i], t.slots[i], m.slots[i])))
  }

  function MergeSlot(s: Schema, f: Field, t: Slot, m: Slot): (r: Slot)
    requires WfSchema(s) && SlotOk(s, f, t) && SlotOk(s, f, m)
    ensures SlotOk(s, f, r)
    decreases m
  {
    match m
    case Unset => t
    case One(v) =>
      if f.kind.Message? && t.One? then
        assert ValueOk(s, f.kind, v) && ValueOk(s, f.kind, t.v);
        var sub := Merge(s, f.kind.index, t.v.m, v.m);
        assert ValueOk(s, f.kind, Sub(sub));
        One(Sub(sub))
      else m
    case Many(vs) => Many(t.vs + vs)
  }

  lemma {:induction false} MergeIntoEmpty(s: Schema, ty: nat, m: Msg)
    requires WfSchema(s) && WellTyped(s, ty, m)
    ensures Merge(s, ty, Empty(s, ty), m) == m
  {
    var r := Merge(s, ty, Empty(s, ty), m);
    forall i | 0 <= i < |m.slots| ensures r.slots[i] == m.slots[i] {
      assert SlotOk(s, s[ty][i], m.slots[i]);
      assert Empty(s, ty).slots[i] == EmptySlot(s[ty][i]);
      assert r.slots[i] == MergeSlot(s, s[ty][i], EmptySlot(s[ty][i]), m.slots[i]);
      if m.slots[i].Many? {
        assert [] + m.slots[i].vs == m.slots[i].vs;
      }
    }
    assert r.slots == m.slots;
  }

  // ---- what the text keeps ----

  /** A double field goes through its default-precision text and back. */
  function CanonReal(libc: Libc, k: Kind, r: real): real
    requires k.Double? || k.Float?
  {
    ToReal(libc, k, NumberNode(libc, libc.show(r))).v.r
  }

  /** Strings end at their first NUL, and a uint64 from 2^63 on goes through a double. */
  function CanonScalar(libc: Libc, k: Kind, v: Value): (c: Value)
    requires ScalarOk(k, v)
    ensures ScalarOk(k, c)
  {
    match k
    case Double => Real(CanonReal(libc, k, v.r))
    case Float => Real(CanonReal(libc, k, v.r))
    case String => Str(CStr(v.s))
    case UInt64 => Num(if v.n < TWO63 then v.n else RoundToDouble(v.n) % TWO64)
    case _ => v
  }

  function CanonValue(libc: Libc, s: Schema, k: Kind, v: Value): (c: Value)
    requires WfSchema(s) && ValueOk(s, k, v)
    ensures ValueOk(s, k, c)
    decreases v
  {
    if k.Message? then Sub(Canon(libc, s, k.index, v.m)) else CanonScalar(libc, k, v)
  }

  function CanonSlot(libc: Libc, s: Schema, f: Field, slot: Slot): (c: Slot)
    requires WfSchema(s) && SlotOk(s, f, slot)
    ensures SlotOk(s, f, c)
    decreases slot
  {
    match slot
    case Unset => Unset
    case One(v) => One(CanonValue(libc, s, f.kind, v))
    case Many(vs) =>
      Many(seq(|vs|, i requires 0 <= i < |vs| => CanonValue(libc, s, f.kind, vs[i])))
  }

  function Canon(libc: Libc, s: Schema, ty: nat, m: Msg): (c: Msg)
    requires WfSchema(s) && WellTyped(s, ty, m)
    ensures WellTyped(s, ty, c)
    decreases m
  {
    Msg(seq(|m.slots|, i requires 0 <= i < |m.slots| => CanonSlot(libc, s, s[ty][i], m.slots[i])))
  }

  /** The text keeps the scalar: no NUL in a string, and a uint64 from 2^63 on is a double. */
  predicate ExactScalar(libc: Libc, k: Kind, v: Value)
    requires ScalarOk(k, v)
  {
    match k
    case Double => CanonReal(libc, k, v.r) == v.r
    case Float => CanonReal(libc, k, v.r) == v.r
    case String => '\0' !in v.s
    case UInt64 => v.n < TWO63 || v.n % 2048 == 0
    case _ => true
  }

  predicate ExactValue(libc: Libc, s: Schema, k: Kind, v: Value)
    requires ValueOk(s, k, v)
    decreases v
  {
    if k.Message? then Exact(libc, s, k.index, v.m) else ExactScalar(libc, k, v)
  }

  predicate ExactSlot(libc: Libc, s: Schema, f: Field, slot: Slot)
    requires SlotOk(s, f, slot)
    decreases slot
  {
    match slot
    case Unset => true
    case One(v) => ExactValue(libc, s, f.kind, v)
    case Many(vs) => forall i :: 0 <= i < |vs| ==> ExactValue(libc, s, f.kind, vs[i])
  }

  /** Every scalar of the message, at any depth, survives the text. */
  predicate Exact(libc: Libc, s: Schema, ty: nat, m: Msg)
    requires WellTyped(s, ty, m)
    decreases m
  {
    forall i :: 0 <= i < |m.slots| ==> ExactSlot(libc, s, s[ty][i], m.slots[i])
  }

  lemma {:induction false} CStrKeeps(s: string)
    ensures CStr(s) == s <==> '\0' !in s
  {
    if s != "" && s[0] != '\0' {
      CStrKeeps(s[1..]);
      assert s == [s[0]] + s[1..];
      assert '\0' in s <==> '\0' in s[1..];
    }
  }

  lemma {:induction false} UlpFrom63(n: nat)
    requires TWO63 <= n < TWO64
    ensures Ulp(n) == 2048
  {
    var a := n / 2;
    var b := a / 2;
    var c := b / 2;
    var d := c / 2;
    var e := d / 2;
    var f := e / 2;
    var g := f / 2;
    var h := g / 2;
    var i := h / 2;
    var j := i / 2;
    var k := j / 2;
    assert TWO53 <= j < 2 * TWO53;
    assert Ulp(k) == 1 && Ulp(j) == 2 && Ulp(i) == 4 && Ulp(h) == 8 && Ulp(g) == 16 && Ulp(f) == 32;
    assert Ulp(e) == 64 && Ulp(d) == 128 && Ulp(c) == 256 && Ulp(b) == 512 && Ulp(a) == 1024;
  }

  /** A double has 53 bits: the distance to its neighbours keeps n between 2^52 and 2^53 times as large. */
  lemma {:induction false} UlpBounds(n: nat)
    ensures n < 0x20_0000_0000_0000 ==> Ulp(n) == 1
    ensures n >= 0x20_0000_0000_0000 ==> Ulp(n) * 0x10_0000_0000_0000 <= n < Ulp(n) * 0x20_0000_0000_0000
    ensures n >= 0x20_0000_0000_0000 ==> Ulp(n) % 2 == 0
  {
    if n >= 0x20_0000_0000_0000 {
      UlpBounds(n / 2);
    }
  }

  lemma {:induction false} RoundChoice(d: int, n: int, u: int, a: int, r: int, even: bool)
    requires n == a + r && 0 <= r < u
    requires d == if 2 * r < u || (2 * r == u && even) then a else a + u
    ensures -u <= 2 * (d - n) <= u
    ensures 2 * (d - n) == u || 2 * (d - n) == -u ==> (even <==> d == a)
  {
  }

  lemma {:induction false} Quotient(n: nat, u: nat)
    requires u > 0
    ensures n == n / u * u + n % u && 0 <= n % u < u
    ensures (n / u + 1) * u == n / u * u + u
  {
  }

  /** Rounding gives a multiple of that distance at most half of it away, on a tie an even one. */
  lemma {:induction false} RoundNatNearest(n: nat) returns (q: nat)
    ensures var d, u: int := RoundNat(n), Ulp(n);
            d == q * u && -u <= 2 * (d - n) <= u && (2 * (d - n) == u || 2 * (d - n) == -u ==> q % 2 == 0)
  {
    var u, d := Ulp(n), RoundNat(n);
    var low, r := n / u, n % u;
    Quotient(n, u);
    var a: int := low * u;
    RoundChoice(d, n, u, a, r, low % 2 == 0);
    q := if d == a then low else low + 1;
  }

  /** Integers of up to 53 bits are doubles. */
  lemma {:induction false} SmallIsDouble(n: int)
    requires -0x20_0000_0000_0000 <= n <= 0x20_0000_0000_0000
    ensures RoundToDouble(n) == n
  {
    var k: nat := if n < 0 then -n else n;
    var q := RoundNatNearest(k);
    UlpBounds(k);
    if k == 0x20_0000_0000_0000 {
      assert Ulp(k) == 2;
      assert k / 2 * 2 == k && k % 2 == 0;
    }
  }

  lemma {:induction false} RoundsToZero(n: int)
    ensures RoundToDouble(n) == 0 <==> n == 0
  {
    var k: nat := if n < 0 then -n else n;
    var q := RoundNatNearest(k);
    UlpBounds(k);
    if k < 0x20_0000_0000_0000 {
      SmallIsDouble(k);
    }
  }

  /** From 2^63 on the doubles are the multiples of 2048. */
  lemma {:induction false} DoubleFrom63(n: int)
    requires TWO63 <= n < TWO64
    ensures 0 <= RoundToDouble(n) <= TWO64
    ensures RoundToDouble(n) % TWO64 == n <==> n % 2048 == 0
  {
    UlpFrom63(n);
    var q, r := n / 2048, n % 2048;
    assert n == q * 2048 + r;
    var d := RoundToDouble(n);
    assert d == q * 2048 || d == (q + 1) * 2048;
    if d == TWO64 {
      assert d % TWO64 == 0;
    } else {
      assert d % TWO64 == d;
    }
  }

  /** 2^63 + 1 lies just above the double 2^63. */
  lemma {:induction false} DoubleAbove63()
    ensures RoundToDouble(TWO63 + 1) == TWO63
  {
    UlpFrom63(TWO63 + 1);
    var q := TWO63 / 2048;
    assert TWO63 == q * 2048;
    assert (TWO63 + 1) / 2048 == q && (TWO63 + 1) % 2048 == 1;
  }

  lemma {:induction false} CanonScalarExact(libc: Libc, k: Kind, v: Value)
    requires ScalarOk(k, v)
    ensures CanonScalar(libc, k, v) == v <==> ExactScalar(libc, k, v)
  {
    match k
    case String => CStrKeeps(v.s);
    case UInt64 => if v.n >= TWO63 { DoubleFrom63(v.n); }
    case _ =>
  }

  /** The text keeps the whole message exactly when it keeps every scalar in it. */
  lemma {:induction false} CanonExact(libc: Libc, s: Schema, ty: nat, m: Msg)
    requires WfSchema(s) && WellTyped(s, ty, m)
    ensures Canon(libc, s, ty, m) == m <==> Exact(libc, s, ty, m)
    decreases m
  {
    var c := Canon(libc, s, ty, m);
    forall i | 0 <= i < |m.slots|
      ensures c.slots[i] == m.slots[i] <==> ExactSlot(libc, s, s[ty][i], m.slots[i])
    {
      CanonExactSlot(libc, s, s[ty][i], m.slots[i]);
    }
    assert c == m <==> forall i :: 0 <= i < |m.slots| ==> c.slots[i] == m.slots[i] by {
      if forall i :: 0 <= i < |m.slots| ==> c.slots[i] == m.slots[i] {
        assert c.slots == m.slots;
      }
    }
  }

  lemma {:induction false} CanonExactSlot(libc: Libc, s: Schema, f: Field, slot: Slot)
    requires WfSchema(s) && SlotOk(s, f, slot)
    ensures CanonSlot(libc, s, f, slot) == slot <==> ExactSlot(libc, s, f, slot)
    decreases slot
  {
    match slot
    case Unset =>
    case One(v) =>
      CanonExactValue(libc, s, f.kind, v);
    case Many(vs) =>
      var cs := CanonSlot(libc, s, f, slot).vs;
      forall i | 0 <= i < |vs|
        ensures cs[i] == vs[i] <==> ExactValue(libc, s, f.kind, vs[i])
      {
        CanonExactValue(libc, s, f.kind, vs[i]);
      }
      if forall i :: 0 <= i < |vs| ==> cs[i] == vs[i] {
        assert cs == vs;
      }
  }

  lemma {:induction false} CanonExactValue(libc: Libc, s: Schema, k: Kind, v: Value)
    requires WfSchema(s) && ValueOk(s, k, v)
    ensures CanonValue(libc, s, k, v) == v <==> ExactValue(libc, s, k, v)
    decreases v
  {
    if k.Message? {
      CanonExact(libc, s, k.index, v.m);
    } else {
      CanonScalarExact(libc, k, v);
    }
  }
}
