/** The main results about the printer and the parser. */
module JsonLaws {
  import opened Schema
  import opened JsonText
  import opened JsonReader
  import opened JsonReadBack
  import opened JsonPretty
  import opened JsonMessage
  import opened JsonMerge
  import opened JsonRoundTrip
  import opened JsonParser

  /** The C library writes every finite double as a JSON number. */
  ghost predicate PrintsNumbers(libc: Libc) {
    forall r :: IsNumberText(libc.show(r))
  }

  // ---- the tree of a message ----

  lemma {:induction false} ScalarTreeWf(libc: Libc, k: Kind, v: Value)
    requires PrintsNumbers(libc) && ScalarOk(k, v)
    ensures WfTree(libc, ScalarTree(libc, k, v))
  {
    if k.Bool? {
      assert IsNumberText("0") && IsNumberText("1");
    } else if v.Num? {
      DecIsInteger(v.n);
    }
  }

  lemma {:induction false} ValueTreeWf(libc: Libc, s: Schema, k: Kind, v: Value)
    requires PrintsNumbers(libc) && ValueOk(s, k, v)
    ensures WfTree(libc, ValueTree(libc, s, k, v))
    decreases v
  {
    if k.Message? {
      TreeWf(libc, s, k.index, v.m);
    } else {
      ScalarTreeWf(libc, k, v);
    }
  }

  predicate WfMembers(libc: Libc, ms: seq<Member>) {
    forall i :: 0 <= i < |ms| ==> WfTree(libc, ms[i].value)
  }

  lemma {:induction false} SlotMembersWf(libc: Libc, s: Schema, f: Field, slot: Slot)
    requires PrintsNumbers(libc) && SlotOk(s, f, slot)
    ensures WfMembers(libc, SlotMembers(libc, s, f, slot))
    decreases slot
  {
    match slot
    case Unset =>
    case One(v) =>
      ValueTreeWf(libc, s, f.kind, v);
    case Many(vs) =>
      var trees := ValueTrees(libc, s, f.kind, vs);
      forall i | 0 <= i < |vs| ensures WfTree(libc, trees[i]) {
        ValueTreeWf(libc, s, f.kind, vs[i]);
      }
      assert WfTree(libc, Array(trees));
  }

  lemma {:induction false} MembersWf(libc: Libc, s: Schema, ty: nat, m: Msg, n: nat)
    requires PrintsNumbers(libc) && WellTyped(s, ty, m) && n <= |m.slots|
    ensures WfMembers(libc, MembersUpTo(libc, s, ty, m, n))
    decreases m, n
  {
    if n > 0 {
      MembersWf(libc, s, ty, m, n - 1);
      assert SlotOk(s, s[ty][n - 1], m.slots[n - 1]);
      SlotMembersWf(libc, s, s[ty][n - 1], m.slots[n - 1]);
    }
  }

  lemma {:induction false} TreeWf(libc: Libc, s: Schema, ty: nat, m: Msg)
    requires PrintsNumbers(libc) && WellTyped(s, ty, m)
    ensures WfTree(libc, TreeOf(libc, s, ty, m))
    decreases m, |m.slots| + 1
  {
    var members := MembersUpTo(libc, s, ty, m, |m.slots|);
    MembersWf(libc, s, ty, m, |m.slots|);
    assert TreeOf(libc, s, ty, m) == Object(members);
    forall i | 0 <= i < |members| ensures WfTree(libc, members[i].value) {
    }
  }

  // ---- the strings of a message ----

  predicate ValidValue(s: Schema, k: Kind, v: Value)
    requires ValueOk(s, k, v)
    decreases v
  {
    if k.Message? then ValidStrings(s, k.index, v.m) else k.String? ==> IsUtf8(v.s)
  }

  predicate ValidSlot(s: Schema, f: Field, slot: Slot)
    requires SlotOk(s, f, slot)
    decreases slot
  {
    match slot
    case Unset => true
    case One(v) => ValidValue(s, f.kind, v)
    case Many(vs) => forall i :: 0 <= i < |vs| ==> ValidValue(s, f.kind, vs[i])
  }

  /** Every string of the message, at any depth, is UTF-8; a field of type bytes need not be. */
  predicate ValidStrings(s: Schema, ty: nat, m: Msg)
    requires WellTyped(s, ty, m)
    decreases m
  {
    forall i :: 0 <= i < |m.slots| ==> ValidSlot(s, s[ty][i], m.slots[i])
  }

  lemma {:induction false} IdentifierUtf8(name: string)
    requires forall i :: 0 <= i < |name| ==> IsIdentifierChar(name[i])
    ensures IsUtf8(name)
  {
    if name != "" {
      IdentifierUtf8(name[1..]);
    }
  }

  lemma {:induction false} ValueTreeUtf8(libc: Libc, s: Schema, k: Kind, v: Value)
    requires WfSchema(s) && WfKind(|s|, k) && ValueOk(s, k, v)
    ensures Utf8Tree(ValueTree(libc, s, k, v)) <==> ValidValue(s, k, v)
    decreases v
  {
    if k.Message? {
      TreeUtf8(libc, s, k.index, v.m);
    } else if k.Enum? {
      IdentifierUtf8(k.values[FindByNumber(k.values, v.n)].name);
    }
  }

  predicate Utf8Members(ms: seq<Member>) {
    forall i :: 0 <= i < |ms| ==> IsUtf8(ms[i].key) && Utf8Tree(ms[i].value)
  }

  lemma {:induction false} SlotMembersUtf8(libc: Libc, s: Schema, f: Field, slot: Slot)
    requires WfSchema(s) && WfField(|s|, f) && SlotOk(s, f, slot)
    ensures Utf8Members(SlotMembers(libc, s, f, slot)) <==> ValidSlot(s, f, slot)
    decreases slot
  {
    IdentifierUtf8(f.name);
    match slot
    case Unset =>
    case One(v) =>
      ValueTreeUtf8(libc, s, f.kind, v);
      assert SlotMembers(libc, s, f, slot)[0].value == ValueTree(libc, s, f.kind, v);
    case Many(vs) =>
      var trees := ValueTrees(libc, s, f.kind, vs);
      forall i | 0 <= i < |vs| ensures Utf8Tree(trees[i]) <==> ValidValue(s, f.kind, vs[i]) {
        ValueTreeUtf8(libc, s, f.kind, vs[i]);
      }
      if vs != [] {
        assert SlotMembers(libc, s, f, slot)[0].value == Array(trees);
      }
  }

  lemma {:induction false} MembersUtf8(libc: Libc, s: Schema, ty: nat, m: Msg, n: nat)
    requires WfSchema(s) && WellTyped(s, ty, m) && n <= |m.slots|
    ensures Utf8Members(MembersUpTo(libc, s, ty, m, n))
       <==> forall i :: 0 <= i < n ==> ValidSlot(s, s[ty][i], m.slots[i])
    decreases m, n
  {
    if n > 0 {
      var before := MembersUpTo(libc, s, ty, m, n - 1);
      var own := SlotMembers(libc, s, s[ty][n - 1], m.slots[n - 1]);
      MembersUtf8(libc, s, ty, m, n - 1);
      assert WfDescriptor(|s|, s[ty]) && SlotOk(s, s[ty][n - 1], m.slots[n - 1]);
      SlotMembersUtf8(libc, s, s[ty][n - 1], m.slots[n - 1]);
      Utf8MembersAppend(before, own);
    }
  }

  lemma {:induction false} Utf8MembersAppend(a: seq<Member>, b: seq<Member>)
    ensures Utf8Members(a + b) <==> Utf8Members(a) && Utf8Members(b)
  {
    assert forall i :: 0 <= i < |a| ==> (a + b)[i] == a[i];
    assert forall i :: 0 <= i < |b| ==> (a + b)[|a| + i] == b[i];
  }

  lemma {:induction false} TreeUtf8(libc: Libc, s: Schema, ty: nat, m: Msg)
    requires WfSchema(s) && WellTyped(s, ty, m)
    ensures Utf8Tree(TreeOf(libc, s, ty, m)) <==> ValidStrings(s, ty, m)
    decreases m, |m.slots| + 1
  {
    MembersUtf8(libc, s, ty, m, |m.slots|);
    assert TreeOf(libc, s, ty, m) == Object(MembersUpTo(libc, s, ty, m, |m.slots|));
  }

  // ---- the characters of a printed text ----

  /** Every character is visible or, in pretty form, a line break. */
  predicate Clean(t: string, format: bool) {
    forall i :: 0 <= i < |t| ==> t[i] >= ' ' || (format && t[i] == '\n')
  }

  lemma {:induction false} UnbrokenClean(t: string, format: bool)
    requires Unbroken(t)
    ensures Clean(t, format)
  {
    if t != "" {
      if t[0] == '\\' {
        UnbrokenClean(t[2..], format);
        assert t == [t[0], t[1]] + t[2..];
      } else {
        UnbrokenClean(t[1..], format);
        assert t == [t[0]] + t[1..];
      }
    }
  }

  lemma {:induction false} QuotedClean(s: string, format: bool)
    ensures Clean(Quoted(s), format)
  {
    EscapeUnbroken(s, false);
    UnbrokenClean(Escape(s, false), format);
  }

  lemma {:induction false} CleanAppend(a: string, b: string, format: bool)
    requires Clean(a, format) && Clean(b, format)
    ensures Clean(a + b, format)
  {
  }

  lemma {:induction false} MarginClean(format: bool, indent: nat)
    ensures Clean(Newline(format), format) && Clean(Indent(format, indent), format)
  {
  }

  lemma {:induction false} BracketClean(open: string, body: string, close: string, format: bool, indent: nat)
    requires Clean(open, format) && Clean(body, format) && Clean(close, format)
    ensures Clean(open + body + Newline(format) + Indent(format, indent) + close, format)
  {
    MarginClean(format, indent);
    CleanAppend(open, body, format);
    CleanAppend(open + body, Newline(format), format);
    CleanAppend(open + body + Newline(format), Indent(format, indent), format);
    CleanAppend(open + body + Newline(format) + Indent(format, indent), close, format);
  }

  /** No control character, so no NUL, is ever written raw; line breaks only in pretty form. */
  lemma {:induction false} PrintClean(libc: Libc, j: Json, format: bool, indent: nat)
    requires WfTree(libc, j)
    ensures Clean(Print(j, format, indent), format)
    decreases j, 1
  {
    match j
    case Array(es) =>
      ElementsClean(libc, es, format, indent + 1);
      BracketClean("[", PrintElements(es, format, indent + 1), "]", format, indent);
    case Object(ms) =>
      MembersClean(libc, ms, format, indent + 1);
      BracketClean("{", PrintMembers(ms, format, indent + 1), "}", format, indent);
    case Number(r, _, _, _, _) => NumberTextChars(r);
    case String(s) => QuotedClean(s, format);
    case _ =>
  }

  lemma {:induction false} ElementsClean(libc: Libc, es: seq<Json>, format: bool, indent: nat)
    requires forall i :: 0 <= i < |es| ==> WfTree(libc, es[i])
    ensures Clean(PrintElements(es, format, indent), format)
    decreases es, 0
  {
    if es != [] {
      PrintClean(libc, es[0], format, indent);
      MarginClean(format, indent);
      CleanAppend(Margin(format, indent), Print(es[0], format, indent), format);
      if |es| > 1 {
        ElementsClean(libc, es[1..], format, indent);
        CleanAppend(PrintElement(es[0], format, indent), ",", format);
        CleanAppend(PrintElement(es[0], format, indent) + ",", PrintElements(es[1..], format, indent), format);
      }
    }
  }

  lemma {:induction false} MembersClean(libc: Libc, ms: seq<Member>, format: bool, indent: nat)
    requires forall i :: 0 <= i < |ms| ==> WfTree(libc, ms[i].value)
    ensures Clean(PrintMembers(ms, format, indent), format)
    decreases ms, 0
  {
    if ms != [] {
      MemberClean(libc, ms[0], format, indent);
      if |ms| > 1 {
        MembersClean(libc, ms[1..], format, indent);
        CleanAppend(PrintMember(ms[0], format, indent), ",", format);
        CleanAppend(PrintMember(ms[0], format, indent) + ",", PrintMembers(ms[1..], format, indent), format);
      }
    }
  }

  lemma {:induction false} MemberClean(libc: Libc, m: Member, format: bool, indent: nat)
    requires WfTree(libc, m.value)
    ensures Clean(PrintMember(m, format, indent), format)
    decreases m, 0
  {
    QuotedClean(m.key, format);
    PrintClean(libc, m.value, format, indent);
    MarginClean(format, indent);
    CleanAppend(Quoted(m.key) + ":", if format then " " else "", format);
    CleanAppend(PrintName(m.key, format), Print(m.value, format, indent), format);
    CleanAppend(Margin(format, indent), PrintName(m.key, format) + Print(m.value, format, indent), format);
    PrintMemberForm(m, format, indent);
  }

  // ---- print, then parse ----

  /**
   Parsing the text of a message, compact or pretty, into any target of the same type
   succeeds and merges what the text keeps of the message into the target, exactly if every
   string of the message is UTF-8; else it fails and leaves the target as it was.
   */
  lemma {:induction false} PrintThenParse(libc: Libc, s: Schema, ty: nat, target: Msg, m: Msg, format: bool, indent: nat)
    requires PrintsNumbers(libc)
    requires WfSchema(s) && WellTyped(s, ty, target) && WellTyped(s, ty, m)
    ensures Parsed(libc, s, ty, target, Print(TreeOf(libc, s, ty, m), format, indent))
         == if ValidStrings(s, ty, m) then Outcome(Ok, Merge(s, ty, target, Canon(libc, s, ty, m)))
            else Outcome(Mismatch, target)
  {
    var tree := TreeOf(libc, s, ty, m);
    var text := Print(tree, format, indent);
    TreeWf(libc, s, ty, m);
    TreeUtf8(libc, s, ty, m);
    PrintClean(libc, tree, format, indent);
    CStrKeeps(text);
    ReadDocumentPrinted(libc, tree, format, indent);
    ApplyPrinted(libc, s, ty, target, m);
  }

  /**
   A message comes back from its text, presence bits included, exactly when every string is
   UTF-8 and the text keeps every scalar.
   */
  lemma {:induction false} RoundTrip(libc: Libc, s: Schema, ty: nat, m: Msg, format: bool, indent: nat)
    requires PrintsNumbers(libc)
    requires WfSchema(s) && WellTyped(s, ty, m)
    ensures Parsed(libc, s, ty, Empty(s, ty), Print(TreeOf(libc, s, ty, m), format, indent)) == Outcome(Ok, m)
       <==> ValidStrings(s, ty, m) && Exact(libc, s, ty, m)
  {
    PrintThenParse(libc, s, ty, Empty(s, ty), m, format, indent);
    MergeIntoEmpty(s, ty, Canon(libc, s, ty, m));
    CanonExact(libc, s, ty, m);
  }

  /** The pretty text without the white space outside its string literals is the compact text. */
  lemma {:induction false} PrettyText(libc: Libc, s: Schema, ty: nat, m: Msg, indent: nat)
    requires PrintsNumbers(libc)
    requires WfSchema(s) && WellTyped(s, ty, m)
    ensures StripSpace(Print(TreeOf(libc, s, ty, m), true, indent), Outside)
         == Print(TreeOf(libc, s, ty, m), false, indent)
  {
    TreeWf(libc, s, ty, m);
    PrettyIsCompact(libc, TreeOf(libc, s, ty, m), indent, indent);
  }

  /** A uint64 above 2^63 that is not a double does not come back: 2^63 + 1 returns as 2^63. */
  lemma {:induction false} LargeUnsignedIsRounded(libc: Libc)
    ensures Convert(libc, UInt64, ScalarTree(libc, UInt64, Num(TWO63 + 1))) == Converted(Num(TWO63))
  {
    ConvertScalarTree(libc, 0, UInt64, Num(TWO63 + 1));
    DoubleAbove63();
  }

  // ---- fields do not interfere ----

  /** The members that name field i. */
  function ForField(d: Descriptor, members: seq<Member>, i: nat): seq<Member> {
    if members == [] then []
    else (if FindField(d, CStr(members[0].key)) == i then [members[0]] else []) + ForField(d, members[1..], i)
  }

  /** A member only touches the slot of its field, and what it does there depends on that slot alone. */
  lemma {:induction false} MemberIsLocal(libc: Libc, s: Schema, ty: nat, m: Msg, m': Msg, member: Member, i: nat)
    requires WfSchema(s) && WellTyped(s, ty, m) && WellTyped(s, ty, m') && i < |s[ty]|
    requires m.slots[i] == m'.slots[i]
    ensures var out, out' := ApplyMember(libc, s, ty, m, member), ApplyMember(libc, s, ty, m', member);
            if FindField(s[ty], CStr(member.key)) == i
            then out.rc == out'.rc && out.m.slots[i] == out'.m.slots[i]
            else out.m.slots[i] == m.slots[i]
  {
    var f := FindField(s[ty], CStr(member.key));
    if f < |s[ty]| && member.value.Array? == s[ty][f].repeated {
      var other := if f == i then m' else m;
      if s[ty][f].repeated {
        ElementsAreLocal(libc, s, ty, m, other, member.value.elements, f, i);
      } else {
        SingularIsLocal(libc, s, ty, m, other, member.value, f, i);
      }
    }
  }

  lemma {:induction false} SingularIsLocal(libc: Libc, s: Schema, ty: nat, m: Msg, m': Msg, node: Json, f: nat, i: nat)
    requires WfSchema(s) && WellTyped(s, ty, m) && WellTyped(s, ty, m') && i < |s[ty]|
    requires f < |s[ty]| && !s[ty][f].repeated
    requires m.slots[f] == m'.slots[f]
    ensures var out, out' := ApplySingular(libc, s, ty, f, m, node), ApplySingular(libc, s, ty, f, m', node);
            && out.rc == out'.rc && out.m.slots[f] == out'.m.slots[f]
            && (f != i ==> out.m.slots[i] == m.slots[i])
  {
  }

  lemma {:induction false} ElementsAreLocal(
      libc: Libc, s: Schema, ty: nat, m: Msg, m': Msg, nodes: seq<Json>, f: nat, i: nat)
    requires WfSchema(s) && WellTyped(s, ty, m) && WellTyped(s, ty, m') && i < |s[ty]|
    requires f < |s[ty]| && s[ty][f].repeated
    requires m.slots[f] == m'.slots[f]
    ensures var out, out' := ApplyElements(libc, s, ty, f, m, nodes), ApplyElements(libc, s, ty, f, m', nodes);
            && out.rc == out'.rc && out.m.slots[f] == out'.m.slots[f]
            && (f != i ==> out.m.slots[i] == m.slots[i])
    decreases nodes
  {
    if nodes != [] {
      var out, out' := ApplyElement(libc, s, ty, f, m, nodes[0]), ApplyElement(libc, s, ty, f, m', nodes[0]);
      if out.rc.Ok? {
        ElementsAreLocal(libc, s, ty, out.m, out'.m, nodes[1..], f, i);
      }
    }
  }

  /** Each field ends up as if only the members that name it had been applied. */
  lemma {:induction false} FieldsAreIndependent(
      libc: Libc, s: Schema, ty: nat, m: Msg, m': Msg, members: seq<Member>, i: nat)
    requires WfSchema(s) && WellTyped(s, ty, m) && WellTyped(s, ty, m') && i < |s[ty]|
    requires m.slots[i] == m'.slots[i]
    requires ApplyMembers(libc, s, ty, m, members).rc.Ok?
    ensures var own := ApplyMembers(libc, s, ty, m', ForField(s[ty], members, i));
            && own.rc.Ok?
            && ApplyMembers(libc, s, ty, m, members).m.slots[i] == own.m.slots[i]
    decreases members
  {
    if members != [] {
      var out := ApplyMember(libc, s, ty, m, members[0]);
      MemberIsLocal(libc, s, ty, m, m', members[0], i);
      if FindField(s[ty], CStr(members[0].key)) == i {
        var out' := ApplyMember(libc, s, ty, m', members[0]);
        FieldsAreIndependent(libc, s, ty, out.m, out'.m, members[1..], i);
        var rest := ForField(s[ty], members[1..], i);
        assert ForField(s[ty], members, i) == [members[0]] + rest;
        assert ([members[0]] + rest)[1..] == rest;
      } else {
        FieldsAreIndependent(libc, s, ty, out.m, m', members[1..], i);
        assert ForField(s[ty], members, i) == ForField(s[ty], members[1..], i);
      }
    }
  }

  /** Reordering members of different fields does not change the result. */
  lemma {:induction false} OrderAcrossFields(libc: Libc, s: Schema, ty: nat, m: Msg, a: seq<Member>, b: seq<Member>)
    requires WfSchema(s) && WellTyped(s, ty, m)
    requires ApplyMembers(libc, s, ty, m, a).rc.Ok? && ApplyMembers(libc, s, ty, m, b).rc.Ok?
    requires forall i :: 0 <= i < |s[ty]| ==> ForField(s[ty], a, i) == ForField(s[ty], b, i)
    ensures ApplyMembers(libc, s, ty, m, a) == ApplyMembers(libc, s, ty, m, b)
  {
    var x, y := ApplyMembers(libc, s, ty, m, a).m, ApplyMembers(libc, s, ty, m, b).m;
    forall i | 0 <= i < |s[ty]| ensures x.slots[i] == y.slots[i] {
      FieldsAreIndependent(libc, s, ty, m, m, a, i);
      FieldsAreIndependent(libc, s, ty, m, m, b, i);
      assert ForField(s[ty], a, i) == ForField(s[ty], b, i);
    }
    assert x.slots == y.slots;
  }

  /** Of several members for one singular scalar field the last one decides. */
  lemma {:induction false} LastDuplicateWins(
      libc: Libc, s: Schema, ty: nat, m: Msg, a: seq<Member>, last: Member, b: seq<Member>, i: nat)
    requires WfSchema(s) && WellTyped(s, ty, m)
    requires i < |s[ty]| && !s[ty][i].repeated && !s[ty][i].kind.Message?
    requires FindField(s[ty], CStr(last.key)) == i && ForField(s[ty], b, i) == []
    requires ApplyMembers(libc, s, ty, m, a + [last] + b).rc.Ok?
    ensures var c := Convert(libc, s[ty][i].kind, last.value);
            c.Converted? && ApplyMembers(libc, s, ty, m, a + [last] + b).m.slots[i] == One(c.v)
  {
    ApplyMembersAppend(libc, s, ty, m, a + [last], b);
    ApplyMembersAppend(libc, s, ty, m, a, [last]);
    var before := ApplyMembers(libc, s, ty, m, a).m;
    var after := ApplyMembers(libc, s, ty, before, [last]).m;
    assert ApplyMembers(libc, s, ty, before, [last]) == ApplyMember(libc, s, ty, before, last);
    FieldsAreIndependent(libc, s, ty, after, after, b, i);
  }
}
