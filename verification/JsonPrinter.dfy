/** The printer: writes a message to an output stream step by step. */
module JsonPrinter {
  import opened Schema
  import opened JsonText
  import opened JsonMessage
  import opened Sequences

  /** An output stream holding what has been written so far. */
  class OutStream {
    var text: string

    constructor ()
      ensures text == ""
    {
      text := "";
    }

    method Write(s: string)
      modifies this
      ensures text == old(text) + s
    {
      text := text + s;
    }
  }

  /** The escape sequence of a character, empty if it stands for itself. */
  method EscapeOf(c: char, escapeSolidus: bool) returns (escaped: string)
    ensures escaped == if EscapeChar(c, escapeSolidus) == [c] then "" else EscapeChar(c, escapeSolidus)
  {
    NotItself(c, escapeSolidus);
    escaped := "";
    if c == '\r' {
      escaped := "\\r";
    } else if c == '\n' {
      escaped := "\\n";
    } else if c == '\\' {
      escaped := "\\\\";
    } else if c == '/' {
      if escapeSolidus {
        escaped := "\\/";
      }
    } else if c == '\"' {
      escaped := "\\\"";
    } else if c == '\U{0C}' {
      escaped := "\\f";
    } else if c == '\U{08}' {
      escaped := "\\b";
    } else if c == '\t' {
      escaped := "\\t";
    } else if c < ' ' {
      escaped := "\\u00" + [HexDigit(c as int / 16), HexDigit(c as int % 16)];
    }
  }

  /**
   `json_string_escape`: characters that stand for themselves are written in runs,
   each run when the next escape or the end is reached.
   */
  method JsonStringEscape(os: OutStream, str: string, escapeSolidus: bool)
    modifies os
    ensures os.text == old(os.text) + Escape(str, escapeSolidus)
  {
    var begin, end := 0, 0;
    while end < |str|
      invariant 0 <= begin <= end <= |str|
      invariant os.text == old(os.text) + Escape(str[..begin], escapeSolidus)
      invariant forall k :: begin <= k < end ==> !NeedsEscape(str[k], escapeSolidus)
    {
      var escaped := EscapeOf(str[end], escapeSolidus);
      EscapeNotEmpty(str[end], escapeSolidus);
      NotItself(str[end], escapeSolidus);
      if escaped != "" {
        EscapeRun(str, begin, end, escapeSolidus, old(os.text));
        os.Write(str[begin..end]);
        os.Write(escaped);
        end := end + 1;
        begin := end;
      } else {
        end := end + 1;
      }
    }
    EscapeRest(str, begin, escapeSolidus, old(os.text));
    os.Write(str[begin..end]);
  }

  lemma {:induction false} EscapeNotEmpty(c: char, solidus: bool)
    ensures EscapeChar(c, solidus) != ""
  {
  }

  /** A flushed run and the escape after it. */
  lemma {:induction false} EscapeRun(str: string, begin: nat, end: nat, solidus: bool, before: string)
    requires begin <= end < |str|
    requires forall k :: begin <= k < end ==> !NeedsEscape(str[k], solidus)
    ensures before + Escape(str[..begin], solidus) + str[begin..end] + EscapeChar(str[end], solidus)
         == before + Escape(str[..end + 1], solidus)
  {
    EscapeTo(str, begin, end, solidus);
    EscapeNext(str, end, solidus);
    Assoc(before, Escape(str[..begin], solidus), str[begin..end]);
    Assoc(before, Escape(str[..end], solidus), EscapeChar(str[end], solidus));
  }

  lemma {:induction false} EscapeTo(str: string, begin: nat, end: nat, solidus: bool)
    requires begin <= end <= |str|
    requires forall k :: begin <= k < end ==> !NeedsEscape(str[k], solidus)
    ensures Escape(str[..begin], solidus) + str[begin..end] == Escape(str[..end], solidus)
  {
    EscapePlain(str[begin..end], solidus);
    EscapeAppend(str[..begin], str[begin..end], solidus);
    assert str[..begin] + str[begin..end] == str[..end];
  }

  lemma {:induction false} EscapeNext(str: string, end: nat, solidus: bool)
    requires end < |str|
    ensures Escape(str[..end], solidus) + EscapeChar(str[end], solidus) == Escape(str[..end + 1], solidus)
  {
    EscapeAppend(str[..end], [str[end]], solidus);
    assert str[..end] + [str[end]] == str[..end + 1];
    EscapeOne(str[end], solidus);
  }

  lemma {:induction false} EscapeOne(c: char, solidus: bool)
    ensures Escape([c], solidus) == EscapeChar(c, solidus)
  {
    assert Escape([c], solidus) == EscapeChar(c, solidus) + "";
  }

  /** The run flushed at the end. */
  lemma {:induction false} EscapeRest(str: string, begin: nat, solidus: bool, before: string)
    requires begin <= |str|
    requires forall k :: begin <= k < |str| ==> !NeedsEscape(str[k], solidus)
    ensures before + Escape(str[..begin], solidus) + str[begin..|str|] == before + Escape(str, solidus)
  {
    EscapePlain(str[begin..], solidus);
    EscapeAppend(str[..begin], str[begin..], solidus);
    assert str[..begin] + str[begin..] == str;
    assert str[begin..|str|] == str[begin..];
    Assoc(before, Escape(str[..begin], solidus), str[begin..]);
  }

  /** `printIndent`: the spaces come from a buffer of 128 characters. */
  method PrintIndent(os: OutStream, format: bool, indent: nat)
    modifies os
    ensures os.text == old(os.text) + Indent(format, indent)
  {
    var spaces := Spaces(MAX_INDENT * SPACES_PER_INDENT);
    if format {
      var n := indent;
      if n > MAX_INDENT {
        n := MAX_INDENT;
      }
      assert spaces[..n * SPACES_PER_INDENT] == Spaces(n * SPACES_PER_INDENT);
      os.Write(spaces[..n * SPACES_PER_INDENT]);
    }
  }

  method PrintNewline(os: OutStream, format: bool)
    modifies os
    ensures os.text == old(os.text) + Newline(format)
  {
    if format {
      os.Write("\n");
    }
  }

  method PrintFieldName(os: OutStream, name: string, format: bool)
    modifies os
    ensures os.text == old(os.text) + PrintName(name, format)
  {
    os.Write("\"");
    JsonStringEscape(os, name, false);
    os.Write("\":");
    if format {
      os.Write(" ");
    }
    NameText(old(os.text), Escape(name, false), if format then " " else "");
  }

  lemma {:induction false} NameText(before: string, escaped: string, space: string)
    ensures before + "\"" + escaped + "\":" + space == before + ("\"" + escaped + "\"" + ":" + space)
    ensures before + "\"" + escaped + "\":" == before + ("\"" + escaped + "\"" + ":" + "")
  {
  }

  method PrintString(os: OutStream, v: string)
    modifies os
    ensures os.text == old(os.text) + Quoted(v)
  {
    os.Write("\"");
    JsonStringEscape(os, v, false);
    os.Write("\"");
    Assoc(old(os.text), "\"", Escape(v, false));
    Assoc(old(os.text), "\"" + Escape(v, false), "\"");
  }

  /** An enum name is written without escaping. */
  method PrintEnumName(os: OutStream, name: string)
    requires IsIdentifier(name)
    modifies os
    ensures os.text == old(os.text) + Quoted(name)
  {
    os.Write("\"");
    os.Write(name);
    os.Write("\"");
    EscapePlain(name, false);
    Assoc(old(os.text), "\"", name);
    Assoc(old(os.text), "\"" + name, "\"");
  }

  /** The `printValue` templates for scalars. */
  method PrintScalar(libc: Libc, types: nat, k: Kind, v: Value, os: OutStream, format: bool, indent: nat)
    requires WfKind(types, k) && ScalarOk(k, v)
    modifies os
    ensures os.text == old(os.text) + Print(ScalarTree(libc, k, v), format, indent)
  {
    match k {
      case Double =>
        os.Write(libc.show(v.r));
      case Float =>
        os.Write(libc.show(v.r));
      case Bool =>
        os.Write(if v.b then "1" else "0");
      case Enum(values) =>
        PrintEnumName(os, values[FindByNumber(values, v.n)].name);
      case String =>
        PrintString(os, v.s);
      case Int32 =>
        os.Write(Dec(v.n));
      case Int64 =>
        os.Write(Dec(v.n));
      case UInt32 =>
        os.Write(Dec(v.n));
      case UInt64 =>
        os.Write(Dec(v.n));
    }
  }

  /** The `printValue` template for messages, beside those for scalars. */
  method PrintValue(
      libc: Libc, s: Schema, k: Kind, v: Value, os: OutStream, format: bool, indent: nat)
    requires WfSchema(s) && WfKind(|s|, k) && ValueOk(s, k, v)
    modifies os
    ensures os.text == old(os.text) + Print(ValueTree(libc, s, k, v), format, indent)
    decreases v, 0
  {
    if k.Message? {
      ToJsonStream(libc, s, k.index, v.m, os, format, indent);
    } else {
      PrintScalar(libc, |s|, k, v, os, format, indent);
    }
  }

  /** The body of the element loop. */
  method PrintElementField(
      libc: Libc, s: Schema, k: Kind, v: Value, os: OutStream, first: bool, format: bool, indent: nat)
    requires WfSchema(s) && WfKind(|s|, k) && ValueOk(s, k, v)
    modifies os
    ensures os.text == old(os.text)
                    + ((if first then "" else ",") + PrintElement(ValueTree(libc, s, k, v), format, indent))
    decreases v, 1
  {
    PrintComma(os, first);
    PrintNewline(os, format);
    PrintIndent(os, format, indent);
    PrintValue(libc, s, k, v, os, format, indent);
    FourTexts(old(os.text), if first then "" else ",", Newline(format), Indent(format, indent),
              Print(ValueTree(libc, s, k, v), format, indent));
  }

  method PrintComma(os: OutStream, first: bool)
    modifies os
    ensures os.text == old(os.text) + (if first then "" else ",")
  {
    if !first {
      os.Write(",");
    }
  }

  /** `fieldToJsonStream`: a value, or an array with one element on each line. */
  method FieldToJsonStream(
      libc: Libc, s: Schema, f: Field, slot: Slot, os: OutStream, format: bool, indent: nat)
    requires WfSchema(s) && WfField(|s|, f) && SlotOk(s, f, slot)
    requires slot.One? || slot.Many?
    modifies os
    ensures os.text == old(os.text) + Print(FieldTree(libc, s, f, slot), format, indent)
    decreases slot, 0
  {
    if f.repeated {
      var vs := slot.vs;
      ghost var trees := ValueTrees(libc, s, f.kind, vs);
      var childIndent := indent + 1;
      os.Write("[");
      for i := 0 to |vs|
        invariant os.text == old(os.text) + ("[" + PrintElements(trees[..i], format, childIndent))
      {
        assert ValueOk(s, f.kind, vs[i]);
        PrintElementField(libc, s, f.kind, vs[i], os, i == 0, format, childIndent);
        assert trees[..i + 1] == trees[..i] + [trees[i]];
        PrintElementsSnoc(trees[..i], trees[i], format, childIndent);
        Grow(old(os.text), "[", PrintElements(trees[..i], format, childIndent),
             if i > 0 then "," else "", PrintElement(trees[i], format, childIndent));
      }
      assert trees[..|vs|] == trees;
      PrintNewline(os, format);
      PrintIndent(os, format, indent);
      os.Write("]");
      CloseBracket(old(os.text), "[", PrintElements(trees, format, childIndent),
                   Newline(format), Indent(format, indent), "]");
    } else {
      PrintValue(libc, s, f.kind, slot.v, os, format, indent);
    }
  }

  /** The tree of a slot that is printed. */
  function FieldTree(libc: Libc, s: Schema, f: Field, slot: Slot): Json
    requires SlotOk(s, f, slot) && (slot.One? || slot.Many?)
  {
    match slot
    case One(v) => ValueTree(libc, s, f.kind, v)
    case Many(vs) => Array(ValueTrees(libc, s, f.kind, vs))
  }

  lemma {:induction false} Grow(before: string, open: string, body: string, comma: string, item: string)
    ensures before + (open + body) + (comma + item) == before + (open + (body + comma + item))
  {
  }

  lemma {:induction false} CloseBracket(before: string, open: string, body: string, n: string, i: string, close: string)
    ensures before + (open + body) + n + i + close == before + (open + body + n + i + close)
  {
  }

  lemma {:induction false} FiveTexts(before: string, a: string, b: string, c: string, d: string, e: string)
    ensures before + a + b + c + d + e == before + (a + (b + c + d + e))
  {
  }

  lemma {:induction false} FourTexts(before: string, a: string, b: string, c: string, d: string)
    ensures before + a + b + c + d == before + (a + (b + c + d))
  {
  }

  /** The body of the field loop for a field that is present. */
  method PrintField(
      libc: Libc, s: Schema, f: Field, slot: Slot, os: OutStream, first: bool, format: bool, indent: nat)
    requires WfSchema(s) && WfField(|s|, f) && SlotOk(s, f, slot)
    requires slot.One? || slot.Many?
    modifies os
    ensures os.text == old(os.text)
                    + ((if first then "" else ",")
                       + PrintMember(Member(f.name, FieldTree(libc, s, f, slot)), format, indent))
    decreases slot, 1
  {
    PrintComma(os, first);
    PrintNewline(os, format);
    PrintIndent(os, format, indent);
    PrintFieldName(os, f.name, format);
    FieldToJsonStream(libc, s, f, slot, os, format, indent);
    FiveTexts(old(os.text), if first then "" else ",", Newline(format), Indent(format, indent),
              PrintName(f.name, format), Print(FieldTree(libc, s, f, slot), format, indent));
  }

  /** What the field loop prints next. */
  lemma {:induction false} NextMember(libc: Libc, s: Schema, ty: nat, m: Msg, i: nat, format: bool, indent: nat)
    requires WellTyped(s, ty, m) && i < |m.slots| && SlotOk(s, s[ty][i], m.slots[i])
    ensures var members := MembersUpTo(libc, s, ty, m, i);
            var more := MembersUpTo(libc, s, ty, m, i + 1);
            if m.slots[i].Unset? || m.slots[i] == Many([]) then more == members
            else
              var member := Member(s[ty][i].name, FieldTree(libc, s, s[ty][i], m.slots[i]));
              more != [] &&
              PrintMembers(more, format, indent)
              == PrintMembers(members, format, indent) + (if members == [] then "" else ",")
                 + PrintMember(member, format, indent)
  {
    var members := MembersUpTo(libc, s, ty, m, i);
    if m.slots[i].Unset? || m.slots[i] == Many([]) {
      assert members + [] == members;
    } else {
      PrintMembersSnoc(members, Member(s[ty][i].name, FieldTree(libc, s, s[ty][i], m.slots[i])), format, indent);
    }
  }

  /** The stream after the first i fields. */
  ghost function Opened(
      libc: Libc, s: Schema, ty: nat, m: Msg, i: nat, before: string, format: bool, indent: nat): string
    requires WellTyped(s, ty, m) && i <= |m.slots|
  {
    before + ("{" + PrintMembers(MembersUpTo(libc, s, ty, m, i), format, indent))
  }

  lemma {:induction false} NextOpened(
      libc: Libc, s: Schema, ty: nat, m: Msg, i: nat, before: string, format: bool, indent: nat)
    requires WellTyped(s, ty, m) && i < |m.slots| && SlotOk(s, s[ty][i], m.slots[i])
    ensures var members, more := MembersUpTo(libc, s, ty, m, i), MembersUpTo(libc, s, ty, m, i + 1);
            var now, next := Opened(libc, s, ty, m, i, before, format, indent),
                             Opened(libc, s, ty, m, i + 1, before, format, indent);
            if m.slots[i].Unset? || m.slots[i] == Many([]) then more == members && next == now
            else
              && more != []
              && next == now + ((if members == [] then "" else ",")
                                + PrintMember(Member(s[ty][i].name, FieldTree(libc, s, s[ty][i], m.slots[i])), format, indent))
  {
    var members := MembersUpTo(libc, s, ty, m, i);
    NextMember(libc, s, ty, m, i, format, indent);
    if !(m.slots[i].Unset? || m.slots[i] == Many([])) {
      Grow(before, "{", PrintMembers(members, format, indent), if members == [] then "" else ",",
           PrintMember(Member(s[ty][i].name, FieldTree(libc, s, s[ty][i], m.slots[i])), format, indent));
    }
  }

  /** `ProtobufJson::toJsonStream`. */
  method ToJsonStream(
      libc: Libc, s: Schema, ty: nat, m: Msg, os: OutStream, format: bool, indent: nat)
    requires WfSchema(s) && WellTyped(s, ty, m)
    modifies os
    ensures os.text == old(os.text) + Print(TreeOf(libc, s, ty, m), format, indent)
    decreases m
  {
    var first := true;
    var inner := indent + 1;
    assert WfDescriptor(|s|, s[ty]);
    os.Write("{");
    ghost var before := old(os.text);
    for i := 0 to |s[ty]|
      invariant os.text == Opened(libc, s, ty, m, i, before, format, inner)
      invariant first == (MembersUpTo(libc, s, ty, m, i) == [])
    {
      var f, slot := s[ty][i], m.slots[i];
      assert WfField(|s|, f) && SlotOk(s, f, slot);
      NextOpened(libc, s, ty, m, i, before, format, inner);
      if (f.repeated && |slot.vs| <= 0) || (!f.repeated && slot.Unset?) {
        continue;
      }
      PrintField(libc, s, f, slot, os, first, format, inner);
      first := false;
    }
    PrintNewline(os, format);
    inner := inner - 1;
    PrintIndent(os, format, inner);
    os.Write("}");
    CloseBracket(before, "{", PrintMembers(TreeOf(libc, s, ty, m).members, format, indent + 1),
                 Newline(format), Indent(format, indent), "}");
  }

  /** `toJsonString` and, with `format`, `toPrettyJsonString`. */
  method ToJsonString(libc: Libc, s: Schema, ty: nat, m: Msg, format: bool) returns (text: string)
    requires WfSchema(s) && WellTyped(s, ty, m)
    ensures text == Print(TreeOf(libc, s, ty, m), format, 0)
  {
    var os := new OutStream();
    ToJsonStream(libc, s, ty, m, os, format, 0);
    assert "" + Print(TreeOf(libc, s, ty, m), format, 0) == Print(TreeOf(libc, s, ty, m), format, 0);
    text := os.text;
  }
}
