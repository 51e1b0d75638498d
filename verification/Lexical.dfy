/** Lexicographic order on sequences of atoms: a total order, with no bound on the integers. */
module Lexical {
  import opened Options
  import opened Schema
  import opened Strings
  import opened Compare

  /** One compared value; `End` closes a list and comes before every element. */
  datatype Atom =
    | End
    | IntAtom(n: int)
    | RealAtom(r: real)
    | TextAtom(s: string)

  function Sign(n: int): (r: int)
    ensures -1 <= r <= 1
  {
    if n < 0 then -1 else if n > 0 then 1 else 0
  }

  function Rank(a: Atom): nat {
    match a
    case End => 0
    case IntAtom(_) => 1
    case RealAtom(_) => 2
    case TextAtom(_) => 3
  }

  function AtomCompare(a: Atom, b: Atom): (c: int)
    ensures -1 <= c <= 1
  {
    if Rank(a) != Rank(b) then Sign(Rank(a) - Rank(b))
    else
      match a
      case End => 0
      case IntAtom(n) => Sign(n - b.n)
      case RealAtom(r) => if r == b.r then 0 else if r < b.r then -1 else 1
      case TextAtom(s) => StringCompare(s, b.s)
  }

  function LexCompare(xs: seq<Atom>, ys: seq<Atom>): (c: int)
    ensures -1 <= c <= 1
  {
    if xs == [] then (if ys == [] then 0 else -1)
    else if ys == [] then 1
    else
      var c := AtomCompare(xs[0], ys[0]);
      if c != 0 then c else LexCompare(xs[1..], ys[1..])
  }

  lemma {:induction false} AtomLaws(a: Atom, b: Atom, c: Atom)
    ensures AtomCompare(a, b) == 0 <==> a == b
    ensures AtomCompare(b, a) == -AtomCompare(a, b)
    ensures AtomCompare(a, b) <= 0 && AtomCompare(b, c) <= 0 ==> AtomCompare(a, c) <= 0
  {
    if a.TextAtom? && b.TextAtom? {
      StringLaws(a.s, b.s, if c.TextAtom? then c.s else "");
    }
  }

  lemma {:induction false} LexLaws(xs: seq<Atom>, ys: seq<Atom>, zs: seq<Atom>)
    ensures LexCompare(xs, ys) == 0 <==> xs == ys
    ensures LexCompare(ys, xs) == -LexCompare(xs, ys)
    ensures LexCompare(xs, ys) <= 0 && LexCompare(ys, zs) <= 0 ==> LexCompare(xs, zs) <= 0
  {
    if xs != [] && ys != [] {
      var z := if zs == [] then End else zs[0];
      AtomLaws(xs[0], ys[0], z);
      AtomLaws(ys[0], z, xs[0]);
      AtomLaws(xs[0], z, ys[0]);
      assert xs == [xs[0]] + xs[1..] && ys == [ys[0]] + ys[1..];
      LexLaws(xs[1..], ys[1..], if zs == [] then [] else zs[1..]);
    }
  }

  /** All the ways to go from x over y to z. */
  lemma {:induction false} LexThree(x: seq<Atom>, y: seq<Atom>, z: seq<Atom>)
    ensures LexCompare(x, y) == 0 <==> x == y
    ensures LexCompare(y, x) == -LexCompare(x, y)
    ensures LexCompare(x, y) <= 0 && LexCompare(y, z) <= 0 ==>
              LexCompare(x, z) <= 0 && (LexCompare(x, z) == 0 ==> x == y == z)
    ensures LexCompare(x, y) >= 0 && LexCompare(y, z) >= 0 ==>
              LexCompare(x, z) >= 0 && (LexCompare(x, z) == 0 ==> x == y == z)
  {
    LexLaws(x, y, z);
    LexLaws(z, y, x);
    LexLaws(y, z, x);
    LexLaws(x, z, y);
    LexLaws(y, x, z);
  }

  /** Equal, or different at a position both have: neither is a proper prefix of the other. */
  predicate Forked(xs: seq<Atom>, ys: seq<Atom>) {
    if xs == [] || ys == [] then xs == ys else xs[0] != ys[0] || Forked(xs[1..], ys[1..])
  }

  lemma {:induction false} ForkedAppend(xs: seq<Atom>, xs': seq<Atom>, ys: seq<Atom>, ys': seq<Atom>)
    requires Forked(xs, ys)
    ensures LexCompare(xs + xs', ys + ys')
         == if LexCompare(xs, ys) == 0 then LexCompare(xs', ys') else LexCompare(xs, ys)
    ensures Forked(xs', ys') ==> Forked(xs + xs', ys + ys')
  {
    if xs == [] {
      assert xs + xs' == xs' && ys + ys' == ys';
    } else {
      assert (xs + xs')[1..] == xs[1..] + xs' && (ys + ys')[1..] == ys[1..] + ys';
      AtomLaws(xs[0], ys[0], End);
      if xs[0] == ys[0] {
        ForkedAppend(xs[1..], xs', ys[1..], ys');
      }
    }
  }

  // ---- what 32-bit subtraction makes of it ----

  /** Two atoms as the comparer sees them: integers by a narrowed subtraction. */
  function AtomWrap(a: Atom, b: Atom): int {
    if a.IntAtom? && b.IntAtom? then Narrow(a.n - b.n) else AtomCompare(a, b)
  }

  function WrapCompare(xs: seq<Atom>, ys: seq<Atom>): int {
    if xs == [] then (if ys == [] then 0 else -1)
    else if ys == [] then 1
    else
      var c := AtomWrap(xs[0], ys[0]);
      if c != 0 then c else WrapCompare(xs[1..], ys[1..])
  }

  /** Seen as equal up to the end of both, or seen as different at a position both have. */
  predicate Aligned(xs: seq<Atom>, ys: seq<Atom>) {
    if xs == [] || ys == [] then xs == ys else AtomWrap(xs[0], ys[0]) != 0 || Aligned(xs[1..], ys[1..])
  }

  lemma {:induction false} AlignedAppend(xs: seq<Atom>, xs': seq<Atom>, ys: seq<Atom>, ys': seq<Atom>)
    requires Aligned(xs, ys)
    ensures WrapCompare(xs + xs', ys + ys')
         == if WrapCompare(xs, ys) == 0 then WrapCompare(xs', ys') else WrapCompare(xs, ys)
    ensures Aligned(xs', ys') ==> Aligned(xs + xs', ys + ys')
  {
    if xs == [] {
      assert xs + xs' == xs' && ys + ys' == ys';
    } else {
      assert (xs + xs')[1..] == xs[1..] + xs' && (ys + ys')[1..] == ys[1..] + ys';
      if AtomWrap(xs[0], ys[0]) == 0 {
        AlignedAppend(xs[1..], xs', ys[1..], ys');
      }
    }
  }

  lemma {:induction false} AlignedForked(xs: seq<Atom>, ys: seq<Atom>)
    requires Aligned(xs, ys)
    ensures Forked(xs, ys)
  {
    if xs != [] && ys != [] {
      AtomLaws(xs[0], ys[0], End);
      if AtomWrap(xs[0], ys[0]) == 0 {
        AlignedForked(xs[1..], ys[1..]);
      }
    }
  }

  // ---- the first pair that differs ----

  type Pair = Option<(Atom, Atom)>

  function FirstPair(xs: seq<Atom>, ys: seq<Atom>): Pair {
    if xs == [] || ys == [] then None
    else if xs[0] != ys[0] then Some((xs[0], ys[0]))
    else FirstPair(xs[1..], ys[1..])
  }

  predicate Ints(a: Atom, b: Atom) {
    a.IntAtom? && b.IntAtom?
  }

  /** The comparer sees a difference: integers are not a multiple of 2^32 apart. */
  predicate Seen(a: Atom, b: Atom) {
    if Ints(a, b) then (a.n - b.n) % TWO32 != 0 else a != b
  }

  /** The sign the comparer sees: for integers that of the low 32 bits of the difference. */
  function SeenSign(a: Atom, b: Atom): int {
    if Ints(a, b) then
      var d := (a.n - b.n) % TWO32;
      if d == 0 then 0 else if d < TWO31 then 1 else -1
    else AtomCompare(a, b)
  }

  /** The first pair the comparer sees as different. */
  function FirstSeen(xs: seq<Atom>, ys: seq<Atom>): Pair {
    if xs == [] || ys == [] then None
    else if Seen(xs[0], ys[0]) then Some((xs[0], ys[0]))
    else FirstSeen(xs[1..], ys[1..])
  }

  /** The low 32 bits of a difference, read as a signed number, have its sign. */
  predicate KeepsSign(d: int) {
    d == 0 || (d > 0 && 0 < d % TWO32 < TWO31) || (d < 0 && d % TWO32 >= TWO31)
  }

  lemma {:induction false} WrapArithmetic(a: Atom, b: Atom)
    ensures Sign(AtomWrap(a, b)) == SeenSign(a, b)
    ensures AtomWrap(a, b) != 0 <==> Seen(a, b)
    ensures Ints(a, b) ==> (SeenSign(a, b) == Sign(a.n - b.n) <==> KeepsSign(a.n - b.n))
  {
    AtomLaws(a, b, End);
  }

  lemma {:induction false} FirstSeenLaws(xs: seq<Atom>, ys: seq<Atom>)
    requires Aligned(xs, ys)
    ensures FirstSeen(ys, xs) == Swap(FirstSeen(xs, ys))
    ensures var q := FirstSeen(xs, ys);
            Sign(WrapCompare(xs, ys)) == if q.None? then 0 else SeenSign(q.value.0, q.value.1)
    ensures FirstSeen(xs, ys).Some? ==> WrapCompare(xs, ys) != 0
  {
    if xs != [] && ys != [] {
      WrapArithmetic(xs[0], ys[0]);
      WrapArithmetic(ys[0], xs[0]);
      if AtomWrap(xs[0], ys[0]) == 0 {
        FirstSeenLaws(xs[1..], ys[1..]);
      }
    }
  }

  function Swap(p: Pair): Pair {
    if p.None? then None else Some((p.value.1, p.value.0))
  }

  /** The comparer sees the pair as equal: integers a multiple of 2^32 apart. */
  predicate Hidden(p: Pair) {
    p.Some? && Ints(p.value.0, p.value.1) && (p.value.0.n - p.value.1.n) % TWO32 == 0
  }

  /** The comparer puts the pair in its order. */
  predicate Right(p: Pair) {
    p.Some? && Ints(p.value.0, p.value.1) ==> KeepsSign(p.value.0.n - p.value.1.n)
  }

  /** The comparer puts the pair in its order, whichever comes first. */
  predicate Told(p: Pair) {
    Right(p) && Right(Swap(p))
  }

  lemma {:induction false} RightIsSign(p: Pair)
    requires p.Some?
    ensures Right(p) <==> Sign(AtomWrap(p.value.0, p.value.1)) == AtomCompare(p.value.0, p.value.1)
  {
    WrapArithmetic(p.value.0, p.value.1);
  }

  lemma {:induction false} FirstPairLaws(xs: seq<Atom>, ys: seq<Atom>)
    requires Forked(xs, ys)
    ensures FirstPair(ys, xs) == Swap(FirstPair(xs, ys))
    ensures var p := FirstPair(xs, ys);
            if p.None? then xs == ys && WrapCompare(xs, ys) == 0
            else && p.value.0 != p.value.1
                 && LexCompare(xs, ys) == AtomCompare(p.value.0, p.value.1) != 0
                 && (!Hidden(p) ==> WrapCompare(xs, ys) == AtomWrap(p.value.0, p.value.1))
  {
    if xs != [] && ys != [] {
      AtomLaws(xs[0], ys[0], End);
      WrapArithmetic(xs[0], ys[0]);
      if xs[0] == ys[0] {
        FirstPairLaws(xs[1..], ys[1..]);
        assert xs == [xs[0]] + xs[1..] && ys == [ys[0]] + ys[1..];
      }
    }
  }

  lemma {:induction false} FirstPairAppend(xs: seq<Atom>, xs': seq<Atom>, ys: seq<Atom>, ys': seq<Atom>)
    requires Forked(xs, ys)
    ensures FirstPair(xs + xs', ys + ys')
         == if FirstPair(xs, ys).None? then FirstPair(xs', ys') else FirstPair(xs, ys)
  {
    if xs == [] {
      assert xs + xs' == xs' && ys + ys' == ys';
    } else {
      assert (xs + xs')[1..] == xs[1..] + xs' && (ys + ys')[1..] == ys[1..] + ys';
      if xs[0] == ys[0] {
        FirstPairAppend(xs[1..], xs', ys[1..], ys');
      }
    }
  }

  lemma {:induction false} BothSignsKept(d: int)
    requires d != 0 && KeepsSign(d) && KeepsSign(-d)
    ensures d % TWO32 != 0 && -TWO31 < Narrow(d) < TWO31
  {
  }

  /** A pair told apart is seen in its order, and does not give -2^31, the one result whose negation overflows. */
  lemma {:induction false} ToldNotMinimal(p: Pair)
    requires p.Some? && Told(p) && p.value.0 != p.value.1
    ensures !Hidden(p) && Sign(AtomWrap(p.value.0, p.value.1)) == AtomCompare(p.value.0, p.value.1) != 0
    ensures -TWO31 < AtomWrap(p.value.0, p.value.1) < TWO31
  {
    AtomLaws(p.value.0, p.value.1, End);
    RightIsSign(p);
    if Ints(p.value.0, p.value.1) {
      BothSignsKept(p.value.0.n - p.value.1.n);
    }
  }

  // ---- columns ----

  type Column = seq<Atom>

  /** Compare column by column from i on; the columns flagged descending count with the opposite sign. */
  function ColumnCompare(flags: seq<bool>, xs: seq<Column>, ys: seq<Column>, i: nat): (c: int)
    requires |xs| == |ys| && i <= |xs|
    ensures -1 <= c <= 1
    decreases |xs| - i
  {
    if i == |xs| then 0
    else
      var c := LexCompare(xs[i], ys[i]);
      if c == 0 then ColumnCompare(flags, xs, ys, i + 1)
      else if i < |flags| && flags[i] then -c else c
  }

  lemma {:induction false} ColumnLaws(
      flags: seq<bool>, xs: seq<Column>, ys: seq<Column>, zs: seq<Column>, i: nat)
    requires |xs| == |ys| == |zs| && i <= |xs|
    ensures ColumnCompare(flags, xs, ys, i) == 0 <==> xs[i..] == ys[i..]
    ensures ColumnCompare(flags, ys, xs, i) == -ColumnCompare(flags, xs, ys, i)
    ensures ColumnCompare(flags, xs, ys, i) <= 0 && ColumnCompare(flags, ys, zs, i) <= 0
        ==> ColumnCompare(flags, xs, zs, i) <= 0
    decreases |xs| - i
  {
    if i < |xs| {
      ColumnLaws(flags, xs, ys, zs, i + 1);
      LexThree(xs[i], ys[i], zs[i]);
      LexThree(ys[i], zs[i], xs[i]);
      assert xs[i..] == [xs[i]] + xs[i + 1..] && ys[i..] == [ys[i]] + ys[i + 1..];
      if xs[i] == ys[i] && xs[i + 1..] == ys[i + 1..] {
        assert xs[i..] == ys[i..];
      }
    }
  }

  lemma {:induction false} ColumnsDescending(flags: seq<bool>, xs: seq<Column>, ys: seq<Column>, i: nat)
    requires |xs| == |ys| && i <= |xs|
    requires |xs| <= |flags| && forall j :: i <= j < |xs| ==> flags[j]
    ensures ColumnCompare(flags, xs, ys, i) == -ColumnCompare([], xs, ys, i)
    decreases |xs| - i
  {
    if i < |xs| {
      ColumnsDescending(flags, xs, ys, i + 1);
    }
  }
}
