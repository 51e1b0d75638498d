/**
 What a failed parse has applied: the tree cut off at the first mismatch, in the failing array
 and the failing sub-message again, at any depth.
 */
module JsonCut {
  import opened Schema
  import opened JsonText
  import opened JsonMessage
  import opened JsonRoundTrip

  /** The part of the tree that is applied; a tree that is no object is cut off whole. */
  function CutObject(libc: Libc, s: Schema, ty: nat, m: Msg, node: Json): (c: Json)
    requires WfSchema(s) && WellTyped(s, ty, m)
    ensures c.Object?
    decreases node, 0
  {
    Object(if node.Object? then CutMembers(libc, s, ty, m, node.members) else [])
  }

  /** The pairs before the failing one, and what is applied of that one. */
  function CutMembers(libc: Libc, s: Schema, ty: nat, m: Msg, members: seq<Member>): seq<Member>
    requires WfSchema(s) && WellTyped(s, ty, m)
    decreases members
  {
    if members == [] then []
    else
      var out := ApplyMember(libc, s, ty, m, members[0]);
      if out.rc.Ok? then [members[0]] + CutMembers(libc, s, ty, out.m, members[1..])
      else CutMember(libc, s, ty, m, members[0])
  }

  /** A failing pair: nothing of an unknown field or a scalar, a cut array, a cut sub-message. */
  function CutMember(libc: Libc, s: Schema, ty: nat, m: Msg, member: Member): seq<Member>
    requires WfSchema(s) && WellTyped(s, ty, m)
    decreases member
  {
    var i := FindField(s[ty], CStr(member.key));
    if i == |s[ty]| || member.value.Array? != s[ty][i].repeated then []
    else
      var f := s[ty][i];
      assert WfDescriptor(|s|, s[ty]) && WfField(|s|, f) && SlotOk(s, f, m.slots[i]);
      if f.repeated then [Member(member.key, Array(CutElements(libc, s, ty, i, m, member.value.elements)))]
      else if f.kind.Message? then
        [Member(member.key, CutObject(libc, s, f.kind.index, MutableSub(s, f, m.slots[i]), member.value))]
      else []
  }

  /** The elements before the failing one, and what is applied of that one. */
  function CutElements(libc: Libc, s: Schema, ty: nat, i: nat, m: Msg, nodes: seq<Json>): seq<Json>
    requires WfSchema(s) && WellTyped(s, ty, m) && i < |s[ty]| && s[ty][i].repeated
    decreases nodes
  {
    if nodes == [] then []
    else
      var f := s[ty][i];
      assert WfDescriptor(|s|, s[ty]) && WfField(|s|, f);
      var out := ApplyElement(libc, s, ty, i, m, nodes[0]);
      if out.rc.Ok? then [nodes[0]] + CutElements(libc, s, ty, i, out.m, nodes[1..])
      else if f.kind.Message? then [CutObject(libc, s, f.kind.index, Empty(s, f.kind.index), nodes[0])]
      else []
  }

  // ---- the cut is a truncation ----

  /** The first k pairs, and at most one more with its value truncated. */
  predicate Truncated(cut: Json, node: Json)
    decreases node
  {
    match cut
    case Object(cs) => if node.Object? then TruncatedMembers(cs, node.members) else cs == []
    case Array(cs) => node.Array? && TruncatedElements(cs, node.elements)
    case _ => cut == node
  }

  predicate TruncatedMembers(cs: seq<Member>, ms: seq<Member>)
    decreases ms
  {
    || cs == []
    || (&& ms != [] && cs[0].key == ms[0].key
        && if cs[0] == ms[0] then TruncatedMembers(cs[1..], ms[1..])
           else |cs| == 1 && Truncated(cs[0].value, ms[0].value))
  }

  predicate TruncatedElements(cs: seq<Json>, es: seq<Json>)
    decreases es
  {
    || cs == []
    || (&& es != []
        && if cs[0] == es[0] then TruncatedElements(cs[1..], es[1..])
           else |cs| == 1 && Truncated(cs[0], es[0]))
  }

  lemma {:induction false} CutIsTruncated(libc: Libc, s: Schema, ty: nat, m: Msg, node: Json)
    requires WfSchema(s) && WellTyped(s, ty, m)
    ensures Truncated(CutObject(libc, s, ty, m, node), node)
    decreases node, 0
  {
    if node.Object? {
      CutMembersTruncated(libc, s, ty, m, node.members);
    }
  }

  lemma {:induction false} CutMembersTruncated(libc: Libc, s: Schema, ty: nat, m: Msg, members: seq<Member>)
    requires WfSchema(s) && WellTyped(s, ty, m)
    ensures TruncatedMembers(CutMembers(libc, s, ty, m, members), members)
    decreases members
  {
    if members != [] {
      var out := ApplyMember(libc, s, ty, m, members[0]);
      if out.rc.Ok? {
        CutMembersTruncated(libc, s, ty, out.m, members[1..]);
        var rest := CutMembers(libc, s, ty, out.m, members[1..]);
        assert ([members[0]] + rest)[1..] == rest;
      } else {
        CutMemberTruncated(libc, s, ty, m, members[0]);
        var cut := CutMember(libc, s, ty, m, members[0]);
        assert cut != [] ==> cut[1..] == [];
      }
    }
  }

  lemma {:induction false} CutMemberTruncated(libc: Libc, s: Schema, ty: nat, m: Msg, member: Member)
    requires WfSchema(s) && WellTyped(s, ty, m)
    ensures var cut := CutMember(libc, s, ty, m, member);
            |cut| <= 1 && (cut != [] ==> cut[0].key == member.key && Truncated(cut[0].value, member.value))
    decreases member
  {
    var i := FindField(s[ty], CStr(member.key));
    if i < |s[ty]| && member.value.Array? == s[ty][i].repeated {
      var f := s[ty][i];
      assert WfDescriptor(|s|, s[ty]) && WfField(|s|, f) && SlotOk(s, f, m.slots[i]);
      if f.repeated {
        CutElementsTruncated(libc, s, ty, i, m, member.value.elements);
      } else if f.kind.Message? {
        CutIsTruncated(libc, s, f.kind.index, MutableSub(s, f, m.slots[i]), member.value);
      }
    }
  }

  lemma {:induction false} CutElementsTruncated(libc: Libc, s: Schema, ty: nat, i: nat, m: Msg, nodes: seq<Json>)
    requires WfSchema(s) && WellTyped(s, ty, m) && i < |s[ty]| && s[ty][i].repeated
    ensures TruncatedElements(CutElements(libc, s, ty, i, m, nodes), nodes)
    decreases nodes
  {
    if nodes != [] {
      var f := s[ty][i];
      assert WfDescriptor(|s|, s[ty]) && WfField(|s|, f);
      var out := ApplyElement(libc, s, ty, i, m, nodes[0]);
      if out.rc.Ok? {
        CutElementsTruncated(libc, s, ty, i, out.m, nodes[1..]);
        var rest := CutElements(libc, s, ty, i, out.m, nodes[1..]);
        assert ([nodes[0]] + rest)[1..] == rest;
      } else if f.kind.Message? {
        var cut := CutObject(libc, s, f.kind.index, Empty(s, f.kind.index), nodes[0]);
        CutIsTruncated(libc, s, f.kind.index, Empty(s, f.kind.index), nodes[0]);
        assert [cut][1..] == [];
      }
    }
  }

  // ---- applying the cut ----

  /**
   Whether a parse succeeds or fails, and wherever it fails, the message it leaves is the one
   that parsing the applied part of the tree gives, without a failure.
   */
  lemma {:induction false} AppliesTheCut(libc: Libc, s: Schema, ty: nat, m: Msg, node: Json)
    requires WfSchema(s) && WellTyped(s, ty, m)
    ensures ApplyObject(libc, s, ty, m, CutObject(libc, s, ty, m, node))
         == Outcome(Ok, ApplyObject(libc, s, ty, m, node).m)
    ensures ApplyObject(libc, s, ty, m, node).rc.Ok? ==> CutObject(libc, s, ty, m, node) == node
    decreases node, 0
  {
    if node.Object? {
      AppliesCutMembers(libc, s, ty, m, node.members);
    }
  }

  lemma {:induction false} AppliesCutMembers(libc: Libc, s: Schema, ty: nat, m: Msg, members: seq<Member>)
    requires WfSchema(s) && WellTyped(s, ty, m)
    ensures ApplyMembers(libc, s, ty, m, CutMembers(libc, s, ty, m, members))
         == Outcome(Ok, ApplyMembers(libc, s, ty, m, members).m)
    ensures ApplyMembers(libc, s, ty, m, members).rc.Ok? ==> CutMembers(libc, s, ty, m, members) == members
    decreases members
  {
    if members != [] {
      var out := ApplyMember(libc, s, ty, m, members[0]);
      if out.rc.Ok? {
        AppliesCutMembers(libc, s, ty, out.m, members[1..]);
        var rest := CutMembers(libc, s, ty, out.m, members[1..]);
        assert ([members[0]] + rest)[1..] == rest;
        assert [members[0]] + members[1..] == members;
      } else {
        AppliesCutMember(libc, s, ty, m, members[0]);
      }
    }
  }

  lemma {:induction false} OneMember(libc: Libc, s: Schema, ty: nat, m: Msg, member: Member)
    requires WfSchema(s) && WellTyped(s, ty, m)
    ensures ApplyMembers(libc, s, ty, m, [member]) == ApplyMember(libc, s, ty, m, member)
  {
    var out := ApplyMember(libc, s, ty, m, member);
    assert [member][1..] == [];
    assert ApplyMembers(libc, s, ty, out.m, []) == Outcome(Ok, out.m);
  }

  lemma {:induction false} AppliesCutMember(libc: Libc, s: Schema, ty: nat, m: Msg, member: Member)
    requires WfSchema(s) && WellTyped(s, ty, m)
    requires !ApplyMember(libc, s, ty, m, member).rc.Ok?
    ensures ApplyMembers(libc, s, ty, m, CutMember(libc, s, ty, m, member))
         == Outcome(Ok, ApplyMember(libc, s, ty, m, member).m)
    decreases member
  {
    var i := FindField(s[ty], CStr(member.key));
    if i < |s[ty]| && member.value.Array? == s[ty][i].repeated {
      var f := s[ty][i];
      assert WfDescriptor(|s|, s[ty]) && WfField(|s|, f) && SlotOk(s, f, m.slots[i]);
      if f.repeated {
        AppliesCutElements(libc, s, ty, i, m, member.value.elements);
        OneMember(libc, s, ty, m, CutMember(libc, s, ty, m, member)[0]);
      } else if f.kind.Message? {
        AppliesTheCut(libc, s, f.kind.index, MutableSub(s, f, m.slots[i]), member.value);
        OneMember(libc, s, ty, m, CutMember(libc, s, ty, m, member)[0]);
      }
    }
  }

  lemma {:induction false} OneElement(libc: Libc, s: Schema, ty: nat, i: nat, m: Msg, node: Json)
    requires WfSchema(s) && WellTyped(s, ty, m) && i < |s[ty]| && s[ty][i].repeated
    ensures ApplyElements(libc, s, ty, i, m, [node]) == ApplyElement(libc, s, ty, i, m, node)
  {
    var out := ApplyElement(libc, s, ty, i, m, node);
    assert [node][1..] == [];
    assert ApplyElements(libc, s, ty, i, out.m, []) == Outcome(Ok, out.m);
  }

  lemma {:induction false} AppliesCutElements(libc: Libc, s: Schema, ty: nat, i: nat, m: Msg, nodes: seq<Json>)
    requires WfSchema(s) && WellTyped(s, ty, m) && i < |s[ty]| && s[ty][i].repeated
    ensures ApplyElements(libc, s, ty, i, m, CutElements(libc, s, ty, i, m, nodes))
         == Outcome(Ok, ApplyElements(libc, s, ty, i, m, nodes).m)
    ensures ApplyElements(libc, s, ty, i, m, nodes).rc.Ok? ==> CutElements(libc, s, ty, i, m, nodes) == nodes
    decreases nodes
  {
    if nodes != [] {
      var f := s[ty][i];
      assert WfDescriptor(|s|, s[ty]) && WfField(|s|, f) && SlotOk(s, f, m.slots[i]);
      var out := ApplyElement(libc, s, ty, i, m, nodes[0]);
      if out.rc.Ok? {
        AppliesCutElements(libc, s, ty, i, out.m, nodes[1..]);
        var rest := CutElements(libc, s, ty, i, out.m, nodes[1..]);
        assert ([nodes[0]] + rest)[1..] == rest;
        assert [nodes[0]] + nodes[1..] == nodes;
      } else if f.kind.Message? {
        AppliesTheCut(libc, s, f.kind.index, Empty(s, f.kind.index), nodes[0]);
        OneElement(libc, s, ty, i, m, CutObject(libc, s, f.kind.index, Empty(s, f.kind.index), nodes[0]));
      }
    }
  }

  // ---- duplicates ----

  /** Two pairs for one repeated field append: they are one pair with both lists. */
  lemma {:induction false} DuplicatesAppend(libc: Libc, s: Schema, ty: nat, m: Msg, key: string, xs: seq<Json>, ys: seq<Json>)
    requires WfSchema(s) && WellTyped(s, ty, m)
    requires var i := FindField(s[ty], CStr(key)); i < |s[ty]| && s[ty][i].repeated
    ensures ApplyMembers(libc, s, ty, m, [Member(key, Array(xs)), Member(key, Array(ys))])
         == ApplyMembers(libc, s, ty, m, [Member(key, Array(xs + ys))])
  {
    var i := FindField(s[ty], CStr(key));
    ApplyElementsAppend(libc, s, ty, i, m, xs, ys);
    TwoMembers(libc, s, ty, m, Member(key, Array(xs)), Member(key, Array(ys)));
    OneMember(libc, s, ty, m, Member(key, Array(xs + ys)));
  }

  lemma {:induction false} TwoMembers(libc: Libc, s: Schema, ty: nat, m: Msg, a: Member, b: Member)
    requires WfSchema(s) && WellTyped(s, ty, m)
    ensures var out := ApplyMember(libc, s, ty, m, a);
            ApplyMembers(libc, s, ty, m, [a, b]) == if out.rc.Ok? then ApplyMember(libc, s, ty, out.m, b) else out
  {
    var out := ApplyMember(libc, s, ty, m, a);
    assert [a, b][1..] == [b];
    if out.rc.Ok? {
      OneMember(libc, s, ty, out.m, b);
    }
  }

  /** Two objects for one message field merge: they are one object with the pairs of both. */
  lemma {:induction false} DuplicatesMerge(libc: Libc, s: Schema, ty: nat, m: Msg, key: string, a: seq<Member>, b: seq<Member>)
    requires WfSchema(s) && WellTyped(s, ty, m)
    requires var i := FindField(s[ty], CStr(key));
             i < |s[ty]| && !s[ty][i].repeated && s[ty][i].kind.Message?
    ensures ApplyMembers(libc, s, ty, m, [Member(key, Object(a)), Member(key, Object(b))])
         == ApplyMembers(libc, s, ty, m, [Member(key, Object(a + b))])
  {
    var i := FindField(s[ty], CStr(key));
    var f := s[ty][i];
    assert WfDescriptor(|s|, s[ty]) && WfField(|s|, f) && SlotOk(s, f, m.slots[i]);
    var sub := MutableSub(s, f, m.slots[i]);
    ApplyMembersAppend(libc, s, f.kind.index, sub, a, b);
    TwoMembers(libc, s, ty, m, Member(key, Object(a)), Member(key, Object(b)));
    OneMember(libc, s, ty, m, Member(key, Object(a + b)));
    var first := ApplyMembers(libc, s, f.kind.index, sub, a);
    ApplySub(libc, s, ty, i, m, key, a);
    ApplySub(libc, s, ty, i, m, key, a + b);
    if first.rc.Ok? {
      var second := ApplyMembers(libc, s, f.kind.index, first.m, b);
      var mid := ApplyMember(libc, s, ty, m, Member(key, Object(a))).m;
      ApplySub(libc, s, ty, i, mid, key, b);
      WithSlotTwice(m, i, One(Sub(first.m)), One(Sub(second.m)));
    }
  }

  /** A pair with an object for a message field. */
  lemma {:induction false} ApplySub(libc: Libc, s: Schema, ty: nat, i: nat, m: Msg, key: string, members: seq<Member>)
    requires WfSchema(s) && WellTyped(s, ty, m) && FindField(s[ty], CStr(key)) == i < |s[ty]|
    requires !s[ty][i].repeated && s[ty][i].kind.Message?
    requires WfField(|s|, s[ty][i]) && SlotOk(s, s[ty][i], m.slots[i])
    ensures var sub := ApplyMembers(libc, s, s[ty][i].kind.index, MutableSub(s, s[ty][i], m.slots[i]), members);
            ApplyMember(libc, s, ty, m, Member(key, Object(members)))
            == Outcome(sub.rc, WithSlot(m, i, One(Sub(sub.m))))
  {
    assert ApplyMember(libc, s, ty, m, Member(key, Object(members))) == ApplySingular(libc, s, ty, i, m, Object(members));
    assert ApplyObject(libc, s, s[ty][i].kind.index, MutableSub(s, s[ty][i], m.slots[i]), Object(members))
        == ApplyMembers(libc, s, s[ty][i].kind.index, MutableSub(s, s[ty][i], m.slots[i]), members);
  }
}
