/** The pretty text and the compact text of a tree differ only in white space outside string literals. */
module JsonPretty {
  import opened JsonText
  import opened JsonReader
  import opened JsonReadBack
  import opened Sequences

  /** Where a scan of a JSON text stands: outside string literals, inside one, or after a backslash in one. */
  datatype Mode = Outside | Inside | Escaped

  function Next(mode: Mode, c: char): Mode {
    match mode
    case Outside => if c == '\"' then Inside else Outside
    case Inside => if c == '\"' then Outside else if c == '\\' then Escaped else Inside
    case Escaped => Inside
  }

  function EndMode(s: string, mode: Mode): Mode {
    if s == "" then mode else EndMode(s[1..], Next(mode, s[0]))
  }

  /** Drops the white space that is not inside a string literal. */
  function StripSpace(s: string, mode: Mode): string {
    if s == "" then ""
    else (if mode.Outside? && IsSpace(s[0]) then "" else [s[0]]) + StripSpace(s[1..], Next(mode, s[0]))
  }

  lemma {:induction false} StripAppend(a: string, b: string, mode: Mode)
    ensures StripSpace(a + b, mode) == StripSpace(a, mode) + StripSpace(b, EndMode(a, mode))
    ensures EndMode(a + b, mode) == EndMode(b, EndMode(a, mode))
  {
    if a == "" {
      assert a + b == b;
    } else {
      assert (a + b)[1..] == a[1..] + b;
      StripAppend(a[1..], b, Next(mode, a[0]));
      Assoc(if mode.Outside? && IsSpace(a[0]) then "" else [a[0]], StripSpace(a[1..], Next(mode, a[0])),
            StripSpace(b, EndMode(a, mode)));
    }
  }

  /** Stripping `pretty` gives `compact`, and every string literal in it is closed. */
  predicate Strips(pretty: string, compact: string) {
    StripSpace(pretty, Outside) == compact && EndMode(pretty, Outside) == Outside
  }

  lemma {:induction false} StripsBoth(p: string, c: string, p': string, c': string)
    requires Strips(p, c) && Strips(p', c')
    ensures Strips(p + p', c + c')
  {
    StripAppend(p, p', Outside);
  }

  lemma {:induction false} StripsSpace(w: string)
    requires AllSpace(w)
    ensures Strips(w, "")
  {
    if w != "" {
      StripsSpace(w[1..]);
    }
  }

  lemma {:induction false} StripsItself(s: string)
    requires forall i :: 0 <= i < |s| ==> !IsSpace(s[i]) && s[i] != '\"'
    ensures Strips(s, s)
  {
    if s != "" {
      StripsItself(s[1..]);
      assert [s[0]] + s[1..] == s;
    }
  }

  lemma {:induction false} StripInside(t: string)
    requires Unbroken(t)
    ensures StripSpace(t, Inside) == t && EndMode(t, Inside) == Inside
  {
    if t != "" {
      assert [t[0]] + t[1..] == t;
      if t[0] == '\\' {
        StripInside(t[2..]);
        assert t[1..][1..] == t[2..];
        assert [t[1]] + t[2..] == t[1..];
      } else {
        StripInside(t[1..]);
      }
    }
  }

  lemma {:induction false} StripsQuoted(s: string)
    ensures Strips(Quoted(s), Quoted(s))
  {
    var t := Escape(s, false);
    EscapeUnbroken(s, false);
    StripInside(t);
    StripAppend("\"", t + "\"", Outside);
    StripAppend(t, "\"", Inside);
    assert Quoted(s) == "\"" + (t + "\"");
  }

  lemma {:induction false} StripsMargin(indent: nat, pretty: string, compact: string)
    requires Strips(pretty, compact)
    ensures Strips(Margin(true, indent) + pretty, compact)
  {
    StripsSpace(Margin(true, indent));
    StripsBoth(Margin(true, indent), "", pretty, compact);
    assert "" + compact == compact;
  }

  /** `open`, a body, and a closing bracket on its own line. */
  lemma {:induction false} StripsBracketed(open: string, body: string, compact: string, close: string, indent: nat, indent': nat)
    requires Strips(open, open) && Strips(body, compact) && Strips(close, close)
    ensures Strips(open + body + Newline(true) + Indent(true, indent) + close,
                   open + compact + Newline(false) + Indent(false, indent') + close)
  {
    StripsMargin(indent, close, close);
    StripsBoth(body, compact, Margin(true, indent) + close, close);
    StripsBoth(open, open, body + (Margin(true, indent) + close), compact + close);
    BracketSplit(open, body, Newline(true), Indent(true, indent), close, "");
    assert open + body + Newline(true) + Indent(true, indent) + close
        == open + (body + (Margin(true, indent) + close));
    assert open + compact + Newline(false) + Indent(false, indent') + close == open + (compact + close);
  }

  /** Deleting the white space outside string literals from the pretty text gives the compact text. */
  lemma {:induction false} PrettyIsCompact(libc: Libc, j: Json, indent: nat, indent': nat)
    requires WfTree(libc, j)
    ensures Strips(Print(j, true, indent), Print(j, false, indent'))
    decreases j, 1
  {
    match j
    case Array(es) =>
      PrettyElements(libc, es, indent + 1, indent' + 1);
      StripsItself("[");
      StripsItself("]");
      StripsBracketed("[", PrintElements(es, true, indent + 1), PrintElements(es, false, indent' + 1),
                      "]", indent, indent');
    case Object(ms) =>
      PrettyMembers(libc, ms, indent + 1, indent' + 1);
      StripsItself("{");
      StripsItself("}");
      StripsBracketed("{", PrintMembers(ms, true, indent + 1), PrintMembers(ms, false, indent' + 1),
                      "}", indent, indent');
    case String(s) =>
      StripsQuoted(s);
    case Number(r, _, _, _, _) =>
      NumberTextChars(r);
      StripsItself(r);
    case Null => StripsItself("null");
    case True => StripsItself("true");
    case False => StripsItself("false");
  }

  lemma {:induction false} PrettyElements(libc: Libc, es: seq<Json>, indent: nat, indent': nat)
    requires forall i :: 0 <= i < |es| ==> WfTree(libc, es[i])
    ensures Strips(PrintElements(es, true, indent), PrintElements(es, false, indent'))
    decreases es, 0
  {
    if es != [] {
      var p, c := Print(es[0], true, indent), Print(es[0], false, indent');
      PrettyIsCompact(libc, es[0], indent, indent');
      StripsMargin(indent, p, c);
      assert PrintElement(es[0], true, indent) == Margin(true, indent) + p;
      assert PrintElement(es[0], false, indent') == c;
      if |es| > 1 {
        PrettyElements(libc, es[1..], indent, indent');
        StripsComma(PrintElement(es[0], true, indent), c,
                    PrintElements(es[1..], true, indent), PrintElements(es[1..], false, indent'));
      }
    }
  }

  lemma {:induction false} StripsComma(p: string, c: string, p': string, c': string)
    requires Strips(p, c) && Strips(p', c')
    ensures Strips(p + "," + p', c + "," + c')
  {
    StripsItself(",");
    StripsBoth(p, c, ",", ",");
    StripsBoth(p + ",", c + ",", p', c');
  }

  lemma {:induction false} PrettyMembers(libc: Libc, ms: seq<Member>, indent: nat, indent': nat)
    requires forall i :: 0 <= i < |ms| ==> WfTree(libc, ms[i].value)
    ensures Strips(PrintMembers(ms, true, indent), PrintMembers(ms, false, indent'))
    decreases ms, 0
  {
    if ms != [] {
      PrettyMember(libc, ms[0], indent, indent');
      if |ms| > 1 {
        PrettyMembers(libc, ms[1..], indent, indent');
        StripsComma(PrintMember(ms[0], true, indent), PrintMember(ms[0], false, indent'),
                    PrintMembers(ms[1..], true, indent), PrintMembers(ms[1..], false, indent'));
      }
    }
  }

  lemma {:induction false} PrettyName(key: string)
    ensures Strips(PrintName(key, true), PrintName(key, false))
  {
    var name := Quoted(key) + ":";
    StripsQuoted(key);
    StripsItself(":");
    StripsBoth(Quoted(key), Quoted(key), ":", ":");
    StripsSpace(" ");
    StripsBoth(name, name, " ", "");
  }

  lemma {:induction false} PrintMemberForm(m: Member, format: bool, indent: nat)
    ensures PrintMember(m, format, indent)
         == Margin(format, indent) + (PrintName(m.key, format) + Print(m.value, format, indent))
  {
    Assoc(Margin(format, indent), PrintName(m.key, format), Print(m.value, format, indent));
  }

  lemma {:induction false} PrettyMember(libc: Libc, m: Member, indent: nat, indent': nat)
    requires WfTree(libc, m.value)
    ensures Strips(PrintMember(m, true, indent), PrintMember(m, false, indent'))
    decreases m, 0
  {
    var p, c := Print(m.value, true, indent), Print(m.value, false, indent');
    PrettyIsCompact(libc, m.value, indent, indent');
    PrettyName(m.key);
    StripsBoth(PrintName(m.key, true), PrintName(m.key, false), p, c);
    StripsMargin(indent, PrintName(m.key, true) + p, PrintName(m.key, false) + c);
    PrintMemberForm(m, true, indent);
    PrintMemberForm(m, false, indent');
    assert Margin(false, indent') == "";
    assert "" + (PrintName(m.key, false) + c) == PrintName(m.key, false) + c;
  }
}
