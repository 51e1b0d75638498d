/**
 The layout of the pretty text, in terms of texts alone: it is what a one-pass formatter makes
 of the compact text, and every line is indented by the brackets open in front of it.
 */
module JsonLayout {
  import opened Schema
  import opened Sequences
  import opened JsonText
  import opened JsonReader
  import opened JsonReadBack
  import opened JsonPretty
  import opened JsonMessage
  import opened JsonLaws

  predicate Opens(c: char) {
    c == '{' || c == '['
  }

  predicate Closes(c: char) {
    c == '}' || c == ']'
  }

  /** The spaces in front of a line with `depth` brackets open. */
  function Width(depth: nat): nat {
    if depth < 64 then 2 * depth else 128
  }

  /** The brackets open at a character outside string literals: a closing bracket is no longer in its pair. */
  function DepthAt(depth: nat, c: char): nat {
    if Closes(c) && depth > 0 then depth - 1 else depth
  }

  function DepthAfter(depth: nat, mode: Mode, c: char): nat {
    if !mode.Outside? then depth
    else if Opens(c) then depth + 1
    else DepthAt(depth, c)
  }

  function Line(depth: nat): string {
    "\n" + Spaces(Width(depth))
  }

  /** What is written in front of a character outside string literals. */
  function Before(depth: nat, c: char, newLine: bool): string {
    if newLine || Closes(c) then Line(DepthAt(depth, c)) else ""
  }

  /**
   Formats a JSON text: drops the white space outside string literals, starts a line after every
   opening bracket and comma and before every closing bracket, and writes a space after every
   colon. `newLine` says that the last character asked for a new line.
   */
  function Layout(t: string, depth: nat, mode: Mode, newLine: bool): string {
    if t == "" then ""
    else if !mode.Outside? then [t[0]] + Layout(t[1..], depth, Next(mode, t[0]), false)
    else if IsSpace(t[0]) then Layout(t[1..], depth, mode, newLine)
    else
      Before(depth, t[0], newLine) + [t[0]] + (if t[0] == ':' then " " else "")
      + Layout(t[1..], DepthAfter(depth, mode, t[0]), Next(mode, t[0]), Opens(t[0]) || t[0] == ',')
  }

  // ---- every line of a formatted text is indented ----

  function Blanks(t: string): (n: nat)
    ensures n <= |t|
  {
    if t != "" && t[0] == ' ' then 1 + Blanks(t[1..]) else 0
  }

  /**
   After every line break outside string literals come as many spaces as the brackets open there
   ask for, and then a character that is no white space.
   */
  predicate LaidOut(t: string, depth: nat, mode: Mode) {
    if t == "" then true
    else if mode.Outside? && t[0] == '\n' then
      var n := Blanks(t[1..]);
      && 1 + n < |t| && !IsSpace(t[1 + n])
      && n == Width(DepthAt(depth, t[1 + n]))
      && LaidOut(t[1..], depth, mode)
    else LaidOut(t[1..], DepthAfter(depth, mode, t[0]), Next(mode, t[0]))
  }

  lemma {:induction false} SpacesThen(n: nat, c: char, t: string, depth: nat)
    requires !IsSpace(c)
    ensures Blanks(Spaces(n) + ([c] + t)) == n
    ensures LaidOut([c] + t, depth, Outside) ==> LaidOut(Spaces(n) + ([c] + t), depth, Outside)
  {
    var u := Spaces(n) + ([c] + t);
    if n == 0 {
      assert u == [c] + t;
    } else {
      assert u[1..] == Spaces(n - 1) + ([c] + t);
      SpacesThen(n - 1, c, t, depth);
    }
  }

  lemma {:induction false} LineThen(depth: nat, c: char, newLine: bool, t: string)
    requires !IsSpace(c) && LaidOut([c] + t, depth, Outside)
    ensures LaidOut(Before(depth, c, newLine) + ([c] + t), depth, Outside)
  {
    var n := Width(DepthAt(depth, c));
    if newLine || Closes(c) {
      SpacesThen(n, c, t, depth);
      BreakThen(n, c, t, depth);
      Assoc("\n", Spaces(n), [c] + t);
    } else {
      assert "" + ([c] + t) == [c] + t;
    }
  }

  lemma {:induction false} BreakThen(n: nat, c: char, t: string, depth: nat)
    requires !IsSpace(c) && n == Width(DepthAt(depth, c))
    requires var u := Spaces(n) + ([c] + t); Blanks(u) == n && LaidOut(u, depth, Outside)
    ensures LaidOut("\n" + (Spaces(n) + ([c] + t)), depth, Outside)
  {
    var u := Spaces(n) + ([c] + t);
    assert ("\n" + u)[1..] == u;
    assert ("\n" + u)[1 + n] == u[n] == c;
  }

  lemma {:induction false} LayoutIsLaidOut(t: string, depth: nat, mode: Mode, newLine: bool)
    ensures LaidOut(Layout(t, depth, mode, newLine), depth, mode)
  {
    if t != "" {
      var c := t[0];
      if mode.Outside? && IsSpace(c) {
        LayoutIsLaidOut(t[1..], depth, mode, newLine);
      } else {
        var d, m, f := DepthAfter(depth, mode, c), Next(mode, c), mode.Outside? && (Opens(c) || c == ',');
        var more := Layout(t[1..], d, m, f);
        LayoutIsLaidOut(t[1..], d, m, f);
        if mode.Outside? {
          var space := if c == ':' then " " else "";
          assert space + more == if c == ':' then [' '] + more else more;
          assert ([c] + (space + more))[1..] == space + more;
          LineThen(depth, c, newLine, space + more);
          ThreeTexts(Before(depth, c, newLine), [c], space, more);
        } else {
          assert ([c] + more)[1..] == more;
        }
      }
    }
  }

  lemma {:induction false} ThreeTexts(a: string, b: string, c: string, d: string)
    ensures a + b + c + d == a + (b + (c + d))
  {
  }

  // ---- the printer lays out as the formatter does ----

  function Start(newLine: bool, depth: nat): string {
    if newLine then Line(depth) else ""
  }

  lemma {:induction false} LineIsMargin(indent: nat)
    ensures Line(indent) == Margin(true, indent) && Margin(false, indent) == ""
  {
  }

  /** Stands for itself, without a space or line break around it. */
  predicate Quiet(c: char) {
    !IsSpace(c) && c != '\"' && !Opens(c) && !Closes(c) && c != ',' && c != ':'
  }

  /** One character outside string literals. */
  lemma {:induction false} LayoutOne(c: char, t: string, depth: nat, newLine: bool)
    requires !IsSpace(c)
    ensures Layout([c] + t, depth, Outside, newLine)
         == Before(depth, c, newLine)
            + ([c] + ((if c == ':' then " " else "")
                      + Layout(t, DepthAfter(depth, Outside, c), Next(Outside, c), Opens(c) || c == ',')))
  {
    var u := [c] + t;
    assert u[0] == c && u[1..] == t;
    ThreeTexts(Before(depth, c, newLine), [c], if c == ':' then " " else "",
               Layout(t, DepthAfter(depth, Outside, c), Next(Outside, c), Opens(c) || c == ','));
  }

  lemma {:induction false} LayoutOneQuiet(c: char, t: string, depth: nat, newLine: bool)
    requires Quiet(c)
    ensures Layout([c] + t, depth, Outside, newLine)
         == Start(newLine, depth) + ([c] + Layout(t, depth, Outside, false))
  {
    LayoutOne(c, t, depth, newLine);
    assert "" + Layout(t, depth, Outside, false) == Layout(t, depth, Outside, false);
  }

  lemma {:induction false} LayoutQuiet(w: string, rest: string, depth: nat, newLine: bool)
    requires w != "" && forall i :: 0 <= i < |w| ==> Quiet(w[i])
    ensures Layout(w + rest, depth, Outside, newLine)
         == Start(newLine, depth) + (w + Layout(rest, depth, Outside, false))
  {
    var head, tail := [w[0]], w[1..];
    var more := Layout(rest, depth, Outside, false);
    assert w == head + tail;
    Assoc(head, tail, rest);
    LayoutOneQuiet(w[0], tail + rest, depth, newLine);
    if tail == "" {
      assert tail + rest == rest;
      assert w == head;
    } else {
      LayoutQuiet(tail, rest, depth, false);
      assert "" + (tail + more) == tail + more;
      Assoc(head, tail, more);
    }
  }

  lemma {:induction false} LayoutOneInside(c: char, t: string, depth: nat, mode: Mode)
    requires !mode.Outside?
    ensures Layout([c] + t, depth, mode, false) == [c] + Layout(t, depth, Next(mode, c), false)
  {
    assert ([c] + t)[1..] == t;
  }

  lemma {:induction false} TwoInFront(t: string, rest: string)
    requires |t| > 1
    ensures t + rest == [t[0]] + ([t[1]] + (t[2..] + rest))
  {
  }

  lemma {:induction false} LayoutInside(t: string, rest: string, depth: nat)
    requires Unbroken(t)
    ensures Layout(t + rest, depth, Inside, false) == t + Layout(rest, depth, Inside, false)
  {
    var more := Layout(rest, depth, Inside, false);
    if t == "" {
      assert t + rest == rest && t + more == more;
    } else if t[0] == '\\' {
      var tail := t[2..];
      LayoutInside(tail, rest, depth);
      TwoInFront(t, rest);
      TwoInFront(t, more);
      LayoutOneInside(t[0], [t[1]] + (tail + rest), depth, Inside);
      LayoutOneInside(t[1], tail + rest, depth, Escaped);
    } else {
      LayoutInside(t[1..], rest, depth);
      assert t + rest == [t[0]] + (t[1..] + rest);
      assert t + more == [t[0]] + (t[1..] + more);
      LayoutOneInside(t[0], t[1..] + rest, depth, Inside);
    }
  }

  lemma {:induction false} LayoutQuoted(s: string, rest: string, depth: nat, newLine: bool)
    ensures Layout(Quoted(s) + rest, depth, Outside, newLine)
         == Start(newLine, depth) + (Quoted(s) + Layout(rest, depth, Outside, false))
  {
    var t := Escape(s, false);
    var more := Layout(rest, depth, Outside, false);
    EscapeUnbroken(s, false);
    QuotedParts(s, rest);
    QuotedParts(s, more);
    LayoutOne('\"', t + ("\"" + rest), depth, newLine);
    LayoutInside(t, "\"" + rest, depth);
    assert ("\"" + rest)[1..] == rest;
    assert "" + (t + ("\"" + more)) == t + ("\"" + more);
  }

  lemma {:induction false} QuotedParts(s: string, rest: string)
    ensures Quoted(s) + rest == "\"" + (Escape(s, false) + ("\"" + rest))
  {
    Assoc("\"" + Escape(s, false), "\"", rest);
    Assoc("\"", Escape(s, false), "\"" + rest);
  }

  /** What the brackets of a list add around what the formatter makes of its body. */
  lemma {:induction false} LayoutBrackets(
      open: char, close: char, compact: string, pretty: string, rest: string, indent: nat, indent': nat, newLine: bool)
    requires (open == '[' && close == ']') || (open == '{' && close == '}')
    requires compact == "" ==> pretty == ""
    requires compact != "" ==>
               Layout(compact + ([close] + rest), indent + 1, Outside, true)
               == pretty + Layout([close] + rest, indent + 1, Outside, false)
    ensures Layout([open] + compact + Newline(false) + Indent(false, indent') + [close] + rest, indent, Outside, newLine)
         == Start(newLine, indent)
            + ([open] + pretty + Newline(true) + Indent(true, indent) + [close] + Layout(rest, indent, Outside, false))
  {
    var more := Layout(rest, indent, Outside, false);
    BracketSplit([open], compact, Newline(false), Indent(false, indent'), [close], rest);
    BracketSplit([open], pretty, Newline(true), Indent(true, indent), [close], more);
    LineIsMargin(indent);
    assert (Newline(false) + Indent(false, indent')) + ([close] + rest) == [close] + rest;
    LayoutOne(open, compact + ([close] + rest), indent, newLine);
    LayoutOne(close, rest, indent + 1, compact == "");
    assert Before(indent + 1, close, compact == "") == Line(indent);
    assert "" + more == more;
    if compact == "" {
      assert "" + ([close] + rest) == [close] + rest;
    }
    assert "" + (pretty + (Line(indent) + ([close] + more))) == pretty + (Line(indent) + ([close] + more));
  }

  lemma {:induction false} LayoutPrinted(libc: Libc, j: Json, rest: string, indent: nat, indent': nat, newLine: bool)
    requires WfTree(libc, j)
    ensures Layout(Print(j, false, indent') + rest, indent, Outside, newLine)
         == Start(newLine, indent) + (Print(j, true, indent) + Layout(rest, indent, Outside, false))
    decreases j, 1
  {
    match j
    case Array(es) =>
      if es != [] {
        LayoutElements(libc, es, "]" + rest, indent + 1, indent' + 1);
      }
      LayoutArray(libc, es, rest, indent, indent', newLine);
    case Object(ms) =>
      if ms != [] {
        LayoutMembers(libc, ms, "}" + rest, indent + 1, indent' + 1);
      }
      LayoutObject(ms, rest, indent, indent', newLine);
    case _ =>
      LayoutLeaf(libc, j, rest, indent, indent', newLine);
  }

  lemma {:induction false} LayoutLeaf(libc: Libc, j: Json, rest: string, indent: nat, indent': nat, newLine: bool)
    requires WfTree(libc, j) && !j.Array? && !j.Object?
    ensures Layout(Print(j, false, indent') + rest, indent, Outside, newLine)
         == Start(newLine, indent) + (Print(j, true, indent) + Layout(rest, indent, Outside, false))
  {
    if j.String? {
      LayoutQuoted(j.s, rest, indent, newLine);
    } else if j.Number? {
      NumberTextChars(j.r);
      LayoutQuiet(j.r, rest, indent, newLine);
    } else {
      LayoutQuiet(if j.Null? then "null" else if j.True? then "true" else "false", rest, indent, newLine);
    }
  }

  lemma {:induction false} LayoutArray(libc: Libc, es: seq<Json>, rest: string, indent: nat, indent': nat, newLine: bool)
    requires es == [] || (&& WfTree(libc, es[0])
                          && Layout(PrintElements(es, false, indent' + 1) + ("]" + rest), indent + 1, Outside, true)
                             == PrintElements(es, true, indent + 1) + Layout("]" + rest, indent + 1, Outside, false))
    ensures Layout(Print(Array(es), false, indent') + rest, indent, Outside, newLine)
         == Start(newLine, indent) + (Print(Array(es), true, indent) + Layout(rest, indent, Outside, false))
  {
    if es != [] {
      ElementsNotEmpty(libc, es, indent' + 1);
    }
    LayoutBrackets('[', ']', PrintElements(es, false, indent' + 1), PrintElements(es, true, indent + 1),
                   rest, indent, indent', newLine);
  }

  lemma {:induction false} LayoutObject(ms: seq<Member>, rest: string, indent: nat, indent': nat, newLine: bool)
    requires ms == [] || Layout(PrintMembers(ms, false, indent' + 1) + ("}" + rest), indent + 1, Outside, true)
                         == PrintMembers(ms, true, indent + 1) + Layout("}" + rest, indent + 1, Outside, false)
    ensures Layout(Print(Object(ms), false, indent') + rest, indent, Outside, newLine)
         == Start(newLine, indent) + (Print(Object(ms), true, indent) + Layout(rest, indent, Outside, false))
  {
    if ms != [] {
      MembersNotEmpty(ms, indent' + 1);
    }
    LayoutBrackets('{', '}', PrintMembers(ms, false, indent' + 1), PrintMembers(ms, true, indent + 1),
                   rest, indent, indent', newLine);
  }

  lemma {:induction false} ElementsNotEmpty(libc: Libc, es: seq<Json>, indent: nat)
    requires es != [] && WfTree(libc, es[0])
    ensures PrintElements(es, false, indent) != ""
  {
    PrintFirstChar(libc, es[0], false, indent);
  }

  lemma {:induction false} MembersNotEmpty(ms: seq<Member>, indent: nat)
    requires ms != []
    ensures PrintMembers(ms, false, indent) != ""
  {
  }

  lemma {:induction false} LayoutComma(t: string, depth: nat)
    ensures Layout("," + t, depth, Outside, false) == "," + Layout(t, depth, Outside, true)
  {
    LayoutOne(',', t, depth, false);
    assert "" + Layout(t, depth, Outside, true) == Layout(t, depth, Outside, true);
    assert "" + ("," + Layout(t, depth, Outside, true)) == "," + Layout(t, depth, Outside, true);
  }

  lemma {:induction false} LayoutElements(libc: Libc, es: seq<Json>, rest: string, indent: nat, indent': nat)
    requires es != [] && forall i :: 0 <= i < |es| ==> WfTree(libc, es[i])
    ensures Layout(PrintElements(es, false, indent') + rest, indent, Outside, true)
         == PrintElements(es, true, indent) + Layout(rest, indent, Outside, false)
    decreases es, 0
  {
    var more := Layout(rest, indent, Outside, false);
    var after := AfterElement(es, false, indent', rest);
    PrintElementsCons(es, false, indent', rest);
    PrintElementsCons(es, true, indent, more);
    LineIsMargin(indent);
    LineIsMargin(indent');
    assert "" + (Print(es[0], false, indent') + after) == Print(es[0], false, indent') + after;
    LayoutPrinted(libc, es[0], after, indent, indent', true);
    if |es| > 1 {
      LayoutElements(libc, es[1..], rest, indent, indent');
      LayoutComma(PrintElements(es[1..], false, indent') + rest, indent);
    }
  }

  lemma {:induction false} LayoutMember(libc: Libc, m: Member, rest: string, indent: nat, indent': nat)
    requires WfTree(libc, m.value)
    ensures Layout(PrintMember(m, false, indent') + rest, indent, Outside, true)
         == PrintMember(m, true, indent) + Layout(rest, indent, Outside, false)
    decreases m, 0
  {
    var more := Layout(rest, indent, Outside, false);
    var value := Print(m.value, false, indent') + rest;
    PrintMemberSplit(m, false, indent', rest);
    PrintMemberSplit(m, true, indent, more);
    LineIsMargin(indent);
    LineIsMargin(indent');
    assert "" + value == value;
    assert "" + (Quoted(m.key) + (":" + value)) == Quoted(m.key) + (":" + value);
    LayoutQuoted(m.key, ":" + value, indent, true);
    LayoutOne(':', value, indent, false);
    LayoutPrinted(libc, m.value, rest, indent, indent', false);
    var printed := Print(m.value, true, indent) + more;
    assert "" + printed == printed;
    assert "" + (":" + (" " + printed)) == ":" + (" " + printed);
  }

  lemma {:induction false} LayoutMembers(libc: Libc, ms: seq<Member>, rest: string, indent: nat, indent': nat)
    requires ms != [] && forall i :: 0 <= i < |ms| ==> WfTree(libc, ms[i].value)
    ensures Layout(PrintMembers(ms, false, indent') + rest, indent, Outside, true)
         == PrintMembers(ms, true, indent) + Layout(rest, indent, Outside, false)
    decreases ms, 0
  {
    var more := Layout(rest, indent, Outside, false);
    PrintMembersCons(ms, false, indent', rest);
    PrintMembersCons(ms, true, indent, more);
    LayoutMember(libc, ms[0], AfterMember(ms, false, indent', rest), indent, indent');
    if |ms| > 1 {
      LayoutMembers(libc, ms[1..], rest, indent, indent');
      LayoutComma(PrintMembers(ms[1..], false, indent') + rest, indent);
    }
  }

  /**
   The pretty text of a message is the compact text formatted, and in it every line is indented
   by two spaces for each bracket open in front of it, up to 64 brackets.
   */
  lemma {:induction false} PrettyIsLaidOut(libc: Libc, s: Schema, ty: nat, m: Msg, indent: nat)
    requires PrintsNumbers(libc)
    requires WfSchema(s) && WellTyped(s, ty, m)
    ensures var pretty, compact := Print(TreeOf(libc, s, ty, m), true, indent), Print(TreeOf(libc, s, ty, m), false, indent);
            pretty == Layout(compact, indent, Outside, false) && LaidOut(pretty, indent, Outside)
  {
    var tree := TreeOf(libc, s, ty, m);
    TreeWf(libc, s, ty, m);
    LayoutPrinted(libc, tree, "", indent, indent, false);
    assert Print(tree, false, indent) + "" == Print(tree, false, indent);
    assert "" + (Print(tree, true, indent) + "") == Print(tree, true, indent);
    LayoutIsLaidOut(Print(tree, false, indent), indent, Outside, false);
  }
}
