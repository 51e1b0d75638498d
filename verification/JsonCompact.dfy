/**
 The compact text of a message, written down directly: which fields appear, in which order, and
 how each value is spelled. The printed trees give exactly this text.
 */
module JsonCompact {
  import opened Schema
  import opened Sequences
  import opened JsonText
  import opened JsonReadBack
  import opened JsonMessage
  import opened JsonPretty
  import opened JsonLiterals

  // ---- how values are spelled ----

  /** One scalar: booleans as 1 and 0, enum values by the name declared first with the number. */
  function ScalarText(libc: Libc, k: Kind, v: Value): string
    requires ScalarOk(k, v)
  {
    match k
    case Double => libc.show(v.r)
    case Float => libc.show(v.r)
    case Bool => if v.b then "1" else "0"
    case Enum(values) => "\"" + values[FindByNumber(values, v.n)].name + "\""
    case String => "\"" + Escape(v.s, false) + "\""
    case _ => Dec(v.n)
  }

  function Commas(texts: seq<string>): string {
    if texts == [] then "" else if |texts| == 1 then texts[0] else texts[0] + "," + Commas(texts[1..])
  }

  function ValueText(libc: Libc, s: Schema, k: Kind, v: Value): string
    requires ValueOk(s, k, v)
    decreases v
  {
    if k.Message? then MessageText(libc, s, k.index, v.m) else ScalarText(libc, k, v)
  }

  function ValueTexts(libc: Libc, s: Schema, k: Kind, vs: seq<Value>): (texts: seq<string>)
    requires forall i :: 0 <= i < |vs| ==> ValueOk(s, k, vs[i])
    ensures |texts| == |vs|
    decreases vs
  {
    seq(|vs|, i requires 0 <= i < |vs| => ValueText(libc, s, k, vs[i]))
  }

  /** A field that is set, or holds at least one element. */
  predicate Present(slot: Slot) {
    slot.One? || (slot.Many? && slot.vs != [])
  }

  function SlotText(libc: Libc, s: Schema, f: Field, slot: Slot): string
    requires SlotOk(s, f, slot) && Present(slot)
    decreases slot
  {
    "\"" + f.name + "\":"
    + match slot
      case One(v) => ValueText(libc, s, f.kind, v)
      case Many(vs) => "[" + Commas(ValueTexts(libc, s, f.kind, vs)) + "]"
  }

  /** The texts of the fields that are present from field i on, in the order of their declarations. */
  function FieldTexts(libc: Libc, s: Schema, ty: nat, m: Msg, i: nat): seq<string>
    requires WellTyped(s, ty, m) && i <= |m.slots|
    decreases m, |m.slots| - i
  {
    if i == |m.slots| then []
    else (if Present(m.slots[i]) then [SlotText(libc, s, s[ty][i], m.slots[i])] else [])
         + FieldTexts(libc, s, ty, m, i + 1)
  }

  function MessageText(libc: Libc, s: Schema, ty: nat, m: Msg): string
    requires WellTyped(s, ty, m)
    decreases m, |m.slots| + 1
  {
    "{" + Commas(FieldTexts(libc, s, ty, m, 0)) + "}"
  }

  // ---- the printed trees give these texts ----

  lemma {:induction false} ScalarSpelled(libc: Libc, types: nat, k: Kind, v: Value)
    requires WfKind(types, k) && ScalarOk(k, v)
    ensures Print(ScalarTree(libc, k, v), false, 0) == ScalarText(libc, k, v)
  {
    if k.Enum? {
      var name := k.values[FindByNumber(k.values, v.n)].name;
      EscapePlain(name, false);
    }
  }

  lemma {:induction false} ValueSpelled(libc: Libc, s: Schema, k: Kind, v: Value)
    requires WfSchema(s) && WfKind(|s|, k) && ValueOk(s, k, v)
    ensures Print(ValueTree(libc, s, k, v), false, 0) == ValueText(libc, s, k, v)
    decreases v
  {
    if k.Message? {
      MessageSpelled(libc, s, k.index, v.m);
    } else {
      ScalarSpelled(libc, |s|, k, v);
    }
  }

  /** A list of trees prints as the texts of its elements with commas between them. */
  lemma {:induction false} ElementsWithCommas(es: seq<Json>, texts: seq<string>, indent: nat)
    requires |es| == |texts| && forall i :: 0 <= i < |es| ==> Print(es[i], false, 0) == texts[i]
    ensures PrintElements(es, false, indent) == Commas(texts)
  {
    if es != [] {
      PrintUnindented(es[0], indent);
      assert PrintElement(es[0], false, indent) == "" + "" + texts[0];
      assert "" + "" + texts[0] == texts[0];
      if |es| > 1 {
        ElementsWithCommas(es[1..], texts[1..], indent);
      }
    }
  }

  predicate PrintAs(ms: seq<Member>, texts: seq<string>) {
    |ms| == |texts| && forall i :: 0 <= i < |ms| ==> PrintMember(ms[i], false, 0) == texts[i]
  }

  lemma {:induction false} PrintAsAppend(a: seq<Member>, x: seq<string>, b: seq<Member>, y: seq<string>)
    requires PrintAs(a, x) && PrintAs(b, y)
    ensures PrintAs(a + b, x + y)
  {
  }

  lemma {:induction false} MembersWithCommas(ms: seq<Member>, texts: seq<string>, indent: nat)
    requires PrintAs(ms, texts)
    ensures PrintMembers(ms, false, indent) == Commas(texts)
  {
    if ms != [] {
      MemberUnindented(ms[0], indent);
      if |ms| > 1 {
        MembersWithCommas(ms[1..], texts[1..], indent);
      }
    }
  }

  lemma {:induction false} NoBreaks(open: string, body: string, close: string, indent: nat)
    ensures open + body + Newline(false) + Indent(false, indent) + close == open + body + close
  {
    assert open + body + "" + "" == open + body;
  }

  lemma {:induction false} SlotSpelled(libc: Libc, s: Schema, f: Field, slot: Slot)
    requires WfSchema(s) && WfField(|s|, f) && SlotOk(s, f, slot)
    ensures var ms := SlotMembers(libc, s, f, slot);
            PrintAs(ms, if Present(slot) then [SlotText(libc, s, f, slot)] else [])
    decreases slot
  {
    match slot
    case Unset =>
    case One(v) =>
      ValueSpelled(libc, s, f.kind, v);
      MemberSpelled(f.name, ValueTree(libc, s, f.kind, v));
    case Many(vs) =>
      var trees, texts := ValueTrees(libc, s, f.kind, vs), ValueTexts(libc, s, f.kind, vs);
      forall i | 0 <= i < |vs| ensures Print(trees[i], false, 0) == texts[i] {
        ValueSpelled(libc, s, f.kind, vs[i]);
      }
      ElementsWithCommas(trees, texts, 1);
      NoBreaks("[", PrintElements(trees, false, 1), "]", 0);
      MemberSpelled(f.name, Array(trees));
  }

  lemma {:induction false} MemberSpelled(name: string, value: Json)
    requires forall i :: 0 <= i < |name| ==> IsIdentifierChar(name[i])
    ensures PrintMember(Member(name, value), false, 0) == "\"" + name + "\":" + Print(value, false, 0)
  {
    EscapePlain(name, false);
    PrintMemberForm(Member(name, value), false, 0);
    var text := Print(value, false, 0);
    assert PrintName(name, false) == "\"" + name + "\"" + ":" + "";
    assert "\"" + name + "\"" + ":" + "" == "\"" + name + "\":";
    assert "" + ("\"" + name + "\":" + text) == "\"" + name + "\":" + text;
  }

  /** The members of the fields from i on print as their texts. */
  lemma {:induction false} FieldsSpelled(libc: Libc, s: Schema, ty: nat, m: Msg, i: nat) returns (ms: seq<Member>)
    requires WfSchema(s) && WellTyped(s, ty, m) && i <= |m.slots|
    ensures MembersUpTo(libc, s, ty, m, |m.slots|) == MembersUpTo(libc, s, ty, m, i) + ms
    ensures PrintAs(ms, FieldTexts(libc, s, ty, m, i))
    decreases m, |m.slots| - i
  {
    var before := MembersUpTo(libc, s, ty, m, i);
    if i == |m.slots| {
      ms := [];
      assert before + [] == before;
    } else {
      var f, slot := s[ty][i], m.slots[i];
      assert WfDescriptor(|s|, s[ty]) && WfField(|s|, f) && SlotOk(s, f, slot);
      var own := SlotMembers(libc, s, f, slot);
      SlotSpelled(libc, s, f, slot);
      var later := FieldsSpelled(libc, s, ty, m, i + 1);
      ms := own + later;
      PrintAsAppend(own, if Present(slot) then [SlotText(libc, s, f, slot)] else [], later, FieldTexts(libc, s, ty, m, i + 1));
      Assoc(before, own, later);
    }
  }

  /**
   The compact text of a message: the fields that are set, and the repeated fields with an
   element, in the order of their declarations, each with its name and its value.
   */
  lemma {:induction false} MessageSpelled(libc: Libc, s: Schema, ty: nat, m: Msg)
    requires WfSchema(s) && WellTyped(s, ty, m)
    ensures Print(TreeOf(libc, s, ty, m), false, 0) == MessageText(libc, s, ty, m)
    decreases m, |m.slots| + 1
  {
    var ms := FieldsSpelled(libc, s, ty, m, 0);
    assert [] + ms == ms;
    ObjectSpelled(MembersUpTo(libc, s, ty, m, |m.slots|), FieldTexts(libc, s, ty, m, 0));
  }

  lemma {:induction false} ObjectSpelled(ms: seq<Member>, texts: seq<string>)
    requires PrintAs(ms, texts)
    ensures Print(Object(ms), false, 0) == "{" + Commas(texts) + "}"
  {
    MembersWithCommas(ms, texts, 1);
    NoBreaks("{", PrintMembers(ms, false, 1), "}", 0);
  }

  // ---- how characters are spelled ----

  const HEX := "0123456789ABCDEF"

  /** The table of section 2.5 of RFC 4627: two-character escapes, \u00 and two digits, or the character itself. */
  lemma {:induction false} CharacterSpelled(c: char)
    ensures Escape([c], false)
         == (if c == '\"' then ['\\', '\"']
             else if c == '\\' then ['\\', '\\']
             else if c as int == 8 then ['\\', 'b']
             else if c as int == 9 then ['\\', 't']
             else if c as int == 10 then ['\\', 'n']
             else if c as int == 12 then ['\\', 'f']
             else if c as int == 13 then ['\\', 'r']
             else if c as int < 32 then ['\\', 'u', '0', '0', HEX[c as int / 16], HEX[c as int % 16]]
             else [c])
  {
    assert [c][1..] == "";
    assert Escape([c], false) == EscapeChar(c, false);
  }
}
