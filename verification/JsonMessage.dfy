/**
 What the printer and the parser mean: the tree a message prints as, and the effect of a
 tree on a target message. The methods that do the work step by step are proved against
 these functions.
 */
module JsonMessage {
  import opened Schema
  import opened JsonText

  // ---- message to tree ----

  /** The tree of one scalar value. Booleans are written as 1 and 0. */
  function ScalarTree(libc: Libc, k: Kind, v: Value): Json
    requires ScalarOk(k, v)
  {
    match k
    case Double => NumberNode(libc, libc.show(v.r))
    case Float => NumberNode(libc, libc.show(v.r))
    case Bool => NumberNode(libc, if v.b then "1" else "0")
    case Enum(values) => Json.String(values[FindByNumber(values, v.n)].name)
    case String => Json.String(v.s)
    case _ => NumberNode(libc, Dec(v.n))
  }

  function ValueTree(libc: Libc, s: Schema, k: Kind, v: Value): Json
    requires ValueOk(s, k, v)
    decreases v
  {
    if k.Message? then TreeOf(libc, s, k.index, v.m) else ScalarTree(libc, k, v)
  }

  function ValueTrees(libc: Libc, s: Schema, k: Kind, vs: seq<Value>): (js: seq<Json>)
    requires forall i :: 0 <= i < |vs| ==> ValueOk(s, k, vs[i])
    ensures |js| == |vs|
    decreases vs
  {
    seq(|vs|, i requires 0 <= i < |vs| => ValueTree(libc, s, k, vs[i]))
  }

  /** The member a slot contributes: none for an unset field and for an empty repeated field. */
  function SlotMembers(libc: Libc, s: Schema, f: Field, slot: Slot): seq<Member>
    requires SlotOk(s, f, slot)
    decreases slot
  {
    match slot
    case Unset => []
    case One(v) => [Member(f.name, ValueTree(libc, s, f.kind, v))]
    case Many(vs) => if vs == [] then [] else [Member(f.name, Array(ValueTrees(libc, s, f.kind, vs)))]
  }

  /** The members of the first n fields, in declaration order. */
  function MembersUpTo(libc: Libc, s: Schema, ty: nat, m: Msg, n: nat): seq<Member>
    requires WellTyped(s, ty, m) && n <= |m.slots|
    decreases m, n
  {
    if n == 0 then []
    else MembersUpTo(libc, s, ty, m, n - 1) + SlotMembers(libc, s, s[ty][n - 1], m.slots[n - 1])
  }

  function TreeOf(libc: Libc, s: Schema, ty: nat, m: Msg): Json
    requires WellTyped(s, ty, m)
    decreases m, |m.slots| + 1
  {
    Object(MembersUpTo(libc, s, ty, m, |m.slots|))
  }

  // ---- tree to message ----

  /** A byte string seen through its C string pointer. */
  function CStr(s: string): string {
    if s == "" || s[0] == '\0' then "" else [s[0]] + CStr(s[1..])
  }

  /** C cast of an integer to an integer kind. */
  function Cast(k: Kind, n: int): (r: int)
    ensures k.Int32? ==> -TWO31 <= r < TWO31
    ensures k.Int64? ==> -TWO63 <= r < TWO63
    ensures k.UInt32? ==> 0 <= r < TWO32
    ensures k.UInt64? ==> 0 <= r < TWO64
  {
    match k
    case Int32 => (n + TWO31) % TWO32 - TWO31
    case Int64 => (n + TWO63) % TWO64 - TWO63
    case UInt32 => n % TWO32
    case _ => n % TWO64
  }

  /** Truncation of a double towards zero. */
  function Truncate(d: real): int {
    if d < 0.0 then 0 - (-d).Floor else d.Floor
  }

  function ToUpper(c: char): char {
    if 'a' <= c <= 'z' then c - 'a' + 'A' else c
  }

  function Upper(s: string): string {
    seq(|s|, i requires 0 <= i < |s| => ToUpper(s[i]))
  }

  /** A node read as a scalar: a value, a type mismatch, or a null enum value passed on to the setter. */
  datatype Conversion = Converted(v: Value) | Refused | Crashed

  function ToInteger(libc: Libc, k: Kind, node: Json): Conversion {
    match node
    case Number(r, i, iValid, d, dValid) =>
      if iValid then Converted(Num(Cast(k, i)))
      else if dValid then Converted(Num(Cast(k, Truncate(d))))
      else Converted(Num(Cast(k, libc.lexInt(k, CStr(r)))))
    case String(s) => Converted(Num(Cast(k, libc.lexInt(k, CStr(s)))))
    case _ => Refused
  }

  function ToReal(libc: Libc, k: Kind, node: Json): Conversion {
    match node
    case Number(r, i, iValid, d, dValid) =>
      if iValid then Converted(Real(if k.Float? then libc.toFloat(i as real) else RoundToDouble(i) as real))
      else if dValid then Converted(Real(if k.Float? then libc.toFloat(d) else d))
      else Converted(Real(libc.lexReal(k, CStr(r))))
    case String(s) => Converted(Real(libc.lexReal(k, CStr(s))))
    case _ => Refused
  }

  function ToBool(node: Json): Conversion {
    match node
    case String(s) => var t := Upper(CStr(s)); Converted(Truth(t == "TRUE" || t == "YES" || t == "1"))
    case Number(_, i, iValid, d, dValid) =>
      if iValid then Converted(Truth(i != 0))
      else if dValid then Converted(Truth(d != 0.0))
      else Refused
    case True => Converted(Truth(true))
    case False => Converted(Truth(false))
    case _ => Refused
  }

  function ToEnum(values: seq<EnumValue>, node: Json): Conversion {
    match node
    case String(s) =>
      var i := FindByName(values, CStr(s));
      if i < |values| then Converted(Num(values[i].number)) else Crashed
    case Number(_, i, _, _, _) =>
      var n := Cast(Int32, i);
      if FindByNumber(values, n) < |values| then Converted(Num(n)) else Crashed
    case _ => Refused
  }

  function Convert(libc: Libc, k: Kind, node: Json): (c: Conversion)
    requires !k.Message?
    ensures c.Converted? ==> ScalarOk(k, c.v)
  {
    match k
    case Double => ToReal(libc, k, node)
    case Float => ToReal(libc, k, node)
    case Bool => ToBool(node)
    case Enum(values) =>
      FirstWithNumber(values, node);
      ToEnum(values, node)
    case String => if node.String? then Converted(Str(CStr(node.s))) else Refused
    case _ => ToInteger(libc, k, node)
  }

  lemma {:induction false} FirstWithNumber(values: seq<EnumValue>, node: Json)
    ensures var c := ToEnum(values, node); c.Converted? ==> ScalarOk(Enum(values), c.v)
  {
    if node.String? {
      var i := FindByName(values, CStr(node.s));
      if i < |values| {
        assert !(forall j :: 0 <= j < |values| ==> values[j].number != values[i].number);
      }
    }
  }

  /** Result code 0, result code 1, or an abort of the program. */
  datatype Rc = Ok | Mismatch | Crash

  /** The result of a step and the target message it leaves, also after a failure. */
  datatype Outcome = Outcome(rc: Rc, m: Msg)

  /** `Descriptor::FindFieldByName`: the position of the field, or the number of fields. */
  function FindField(d: Descriptor, name: string): (i: nat)
    ensures i <= |d|
    ensures i < |d| ==> d[i].name == name
    ensures forall j :: 0 <= j < i ==> d[j].name != name
  {
    if d == [] || d[0].name == name then 0 else 1 + FindField(d[1..], name)
  }

  function WithSlot(m: Msg, i: nat, slot: Slot): Msg
    requires i < |m.slots|
  {
    Msg(m.slots[i := slot])
  }

  /** `MutableMessage`: the sub-message of a slot, created empty if it is not there. */
  function MutableSub(s: Schema, f: Field, slot: Slot): (m: Msg)
    requires WfField(|s|, f) && f.kind.Message? && SlotOk(s, f, slot)
    ensures WellTyped(s, f.kind.index, m)
  {
    if slot.One? then assert ValueOk(s, f.kind, slot.v); slot.v.m else Empty(s, f.kind.index)
  }

  /** A node for the singular field i: set the scalar, or parse into the sub-message. */
  function ApplySingular(libc: Libc, s: Schema, ty: nat, i: nat, m: Msg, node: Json): (out: Outcome)
    requires WfSchema(s) && WellTyped(s, ty, m) && i < |s[ty]| && !s[ty][i].repeated
    ensures WellTyped(s, ty, out.m)
    decreases node, 1
  {
    var f := s[ty][i];
    assert WfDescriptor(|s|, s[ty]) && WfField(|s|, f) && SlotOk(s, f, m.slots[i]);
    if f.kind.Message? then
      var sub := ApplyObject(libc, s, f.kind.index, MutableSub(s, f, m.slots[i]), node);
      assert ValueOk(s, f.kind, Sub(sub.m));
      Outcome(sub.rc, WithSlot(m, i, One(Sub(sub.m))))
    else
      match Convert(libc, f.kind, node)
      case Converted(v) => assert ValueOk(s, f.kind, v); Outcome(Ok, WithSlot(m, i, One(v)))
      case Refused => Outcome(Mismatch, m)
      case Crashed => Outcome(Crash, m)
  }

  /** One array element for the repeated field i: append the scalar, or append a message and parse into it. */
  function ApplyElement(libc: Libc, s: Schema, ty: nat, i: nat, m: Msg, node: Json): (out: Outcome)
    requires WfSchema(s) && WellTyped(s, ty, m) && i < |s[ty]| && s[ty][i].repeated
    ensures WellTyped(s, ty, out.m)
    decreases node, 1
  {
    var f := s[ty][i];
    assert WfDescriptor(|s|, s[ty]) && WfField(|s|, f) && SlotOk(s, f, m.slots[i]);
    var prior := m.slots[i].vs;
    if f.kind.Message? then
      var sub := ApplyObject(libc, s, f.kind.index, Empty(s, f.kind.index), node);
      assert ValueOk(s, f.kind, Sub(sub.m));
      Outcome(sub.rc, WithSlot(m, i, Many(prior + [Sub(sub.m)])))
    else
      match Convert(libc, f.kind, node)
      case Converted(v) => assert ValueOk(s, f.kind, v); Outcome(Ok, WithSlot(m, i, Many(prior + [v])))
      case Refused => Outcome(Mismatch, m)
      case Crashed => Outcome(Crash, m)
  }

  function ApplyElements(libc: Libc, s: Schema, ty: nat, i: nat, m: Msg, nodes: seq<Json>): (out: Outcome)
    requires WfSchema(s) && WellTyped(s, ty, m) && i < |s[ty]| && s[ty][i].repeated
    ensures WellTyped(s, ty, out.m)
    decreases nodes
  {
    if nodes == [] then Outcome(Ok, m)
    else
      var out := ApplyElement(libc, s, ty, i, m, nodes[0]);
      if out.rc.Ok? then ApplyElements(libc, s, ty, i, out.m, nodes[1..]) else out
  }

  function ApplyMember(libc: Libc, s: Schema, ty: nat, m: Msg, member: Member): (out: Outcome)
    requires WfSchema(s) && WellTyped(s, ty, m)
    ensures WellTyped(s, ty, out.m)
    decreases member
  {
    var i := FindField(s[ty], CStr(member.key));
    if i == |s[ty]| || member.value.Array? != s[ty][i].repeated then Outcome(Mismatch, m)
    else if s[ty][i].repeated then ApplyElements(libc, s, ty, i, m, member.value.elements)
    else ApplySingular(libc, s, ty, i, m, member.value)
  }

  function ApplyMembers(libc: Libc, s: Schema, ty: nat, m: Msg, members: seq<Member>): (out: Outcome)
    requires WfSchema(s) && WellTyped(s, ty, m)
    ensures WellTyped(s, ty, out.m)
    decreases members
  {
    if members == [] then Outcome(Ok, m)
    else
      var out := ApplyMember(libc, s, ty, m, members[0]);
      if out.rc.Ok? then ApplyMembers(libc, s, ty, out.m, members[1..]) else out
  }

  /** `jsonToField`: parse a tree into a target message. */
  function ApplyObject(libc: Libc, s: Schema, ty: nat, m: Msg, node: Json): (out: Outcome)
    requires WfSchema(s) && WellTyped(s, ty, m)
    ensures WellTyped(s, ty, out.m)
    decreases node, 0
  {
    if node.Object? then ApplyMembers(libc, s, ty, m, node.members) else Outcome(Mismatch, m)
  }
}
