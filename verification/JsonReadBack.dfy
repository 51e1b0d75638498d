/** The reference reader reads back every text the printer writes. */
module JsonReadBack {
  import opened Options
  import opened JsonText
  import opened JsonReader
  import opened Sequences

  // strings

  /** Section 2.5 of RFC 4627 undoes the escaping of one character. */
  lemma {:induction false} ReadEscapedChar(c: char, solidus: bool, t: string)
    requires EscapeChar(c, solidus)[0] == '\\'
    ensures ReadEscape(EscapeChar(c, solidus)[1..] + t) == Some(([c], t))
  {
    var e := EscapeChar(c, solidus)[1..];
    if |e| == 1 {
      assert (e + t)[1..] == t;
    } else {
      var s := e + t;
      assert s[1..][..4] == e[1..];
      assert s[1..][4..] == t;
      assert HexValue(s[1..][2]) == Some(c as int / 16);
      assert HexValue(s[1..][3]) == Some(c as int % 16);
    }
  }

  /** One more character in front of an escaped text. */
  lemma {:induction false} ReadEscapedCons(c: char, solidus: bool, t: string, more: string, rest: string)
    requires ReadStringBody(t) == Some((more, rest))
    ensures ReadStringBody(EscapeChar(c, solidus) + t) == Some(([c] + more, rest))
  {
    var e := EscapeChar(c, solidus);
    EscapeCharShape(c, solidus);
    assert (e + t)[0] == e[0];
    assert (e + t)[1..] == e[1..] + t;
    if e[0] == '\\' {
      ReadEscapedChar(c, solidus, t);
    } else {
      assert e[1..] + t == t;
    }
  }

  lemma {:induction false} ReadEscaped(s: string, solidus: bool, rest: string)
    ensures ReadStringBody(Escape(s, solidus) + "\"" + rest) == Some((s, rest))
  {
    if s == "" {
      assert "" + "\"" + rest == "\"" + rest;
      assert ("\"" + rest)[1..] == rest;
    } else {
      var e, t := EscapeChar(s[0], solidus), Escape(s[1..], solidus) + "\"" + rest;
      ReadEscaped(s[1..], solidus, rest);
      ReadEscapedCons(s[0], solidus, t, s[1..], rest);
      Assoc(e, Escape(s[1..], solidus), "\"");
      Assoc(e, Escape(s[1..], solidus) + "\"", rest);
      assert [s[0]] + s[1..] == s;
    }
  }

  // numbers

  lemma {:induction false} SkipDigitsSuffix(s: string)
    ensures var t := SkipDigits(s);
            && s[|s| - |t|..] == t
            && AllDigits(s[..|s| - |t|])
            && (t != "" ==> !IsDigit(t[0]))
            && (AllDigits(s) ==> t == "")
  {
    if s != "" && IsDigit(s[0]) {
      SkipDigitsSuffix(s[1..]);
      var t := SkipDigits(s[1..]);
      assert s[|s| - |t|..] == s[1..][|s| - 1 - |t|..];
      assert s[..|s| - |t|] == [s[0]] + s[1..][..|s| - 1 - |t|];
    }
  }

  predicate AllNumberChars(s: string) {
    forall i :: 0 <= i < |s| ==> IsNumberChar(s[i])
  }

  lemma {:induction false} SkipDigitsNumberChars(s: string)
    requires AllNumberChars(SkipDigits(s))
    ensures AllNumberChars(s)
  {
    SkipDigitsSuffix(s);
    var n := |s| - |SkipDigits(s)|;
    forall i | 0 <= i < |s| ensures IsNumberChar(s[i]) {
      if i < n {
        assert s[i] == s[..n][i];
      } else {
        assert s[i] == s[n..][i - n];
      }
    }
  }

  lemma {:induction false} NumberTextChars(s: string)
    requires IsNumberText(s)
    ensures AllNumberChars(s)
  {
    var t := SkipMinus(s);
    var u := if t[0] == '0' then t[1..] else SkipDigits(t);
    var v := SkipFraction(u);
    assert AllNumberChars(v) by {
      if v != "" {
        var w := if |v| > 1 && (v[1] == '+' || v[1] == '-') then v[2..] else v[1..];
        assert AllDigits(w);
        assert v == v[..|v| - |w|] + w;
      }
    }
    assert AllNumberChars(u) by {
      if u != "" && u[0] == '.' {
        SkipDigitsNumberChars(u[1..]);
        assert u == [u[0]] + u[1..];
      }
    }
    assert AllNumberChars(t) by {
      if t[0] == '0' {
        assert t == [t[0]] + u;
      } else {
        SkipDigitsNumberChars(t);
      }
    }
    assert s == t || s == ['-'] + t;
  }

  /** The rest of the text does not go on with the number before it. */
  predicate EndsNumber(rest: string) {
    rest == "" || !IsNumberChar(rest[0])
  }

  lemma {:induction false} NumberSpanExact(r: string, rest: string)
    requires AllNumberChars(r) && EndsNumber(rest)
    ensures NumberSpan(r + rest) == |r|
  {
    if r == "" {
      assert r + rest == rest;
    } else {
      NumberSpanExact(r[1..], rest);
      assert (r + rest)[1..] == r[1..] + rest;
    }
  }

  lemma {:induction false} ReadNumberText(libc: Libc, r: string, rest: string)
    requires IsNumberText(r) && EndsNumber(rest)
    ensures ReadValue(libc, r + rest) == Some((NumberNode(libc, r), rest))
  {
    NumberTextChars(r);
    NumberSpanExact(r, rest);
    assert (r + rest)[..|r|] == r && (r + rest)[|r|..] == rest;
    assert ReadNumber(libc, r + rest) == Some((NumberNode(libc, r), rest));
    assert (r + rest)[0] == r[0];
    ReadValueOfNumber(libc, r + rest);
  }

  lemma {:induction false} ReadValueOfNumber(libc: Libc, s: string)
    requires s != "" && IsNumberChar(s[0]) && ReadNumber(libc, s).Some?
    ensures ReadValue(libc, s) == ReadNumber(libc, s)
  {
    assert !IsSpace(s[0]) && SkipSpace(s) == s;
    assert s[0] != '{' && s[0] != '[' && s[0] != '\"' && s[0] != 'n' && s[0] != 't' && s[0] != 'f';
  }

  lemma {:induction false} DecNatFirst(n: nat)
    ensures n > 0 ==> DecNat(n)[0] != '0'
  {
    if n >= 10 {
      DecNatFirst(n / 10);
    }
  }

  lemma {:induction false} NatOfDecNat(n: nat)
    ensures NatOf(DecNat(n)) == n
  {
    var s := DecNat(n);
    if n >= 10 {
      NatOfDecNat(n / 10);
      assert s[..|s| - 1] == DecNat(n / 10);
    } else {
      assert s[..|s| - 1] == "";
    }
  }

  /** A printed integer is an integer text with that value. */
  lemma {:induction false} DecIsInteger(n: int)
    ensures IsIntegerText(Dec(n)) && IntegerOf(Dec(n)) == n
  {
    var k: nat := if n < 0 then -n else n;
    var s := DecNat(k);
    DecNatFirst(k);
    NatOfDecNat(k);
    SkipDigitsSuffix(s);
    assert SkipMinus(Dec(n)) == s;
    assert IsDigit(s[0]);
    if s[0] == '0' {
      assert k == 0 && s == "0" && s[1..] == "";
    }
  }

  // white space

  predicate AllSpace(s: string) {
    forall i :: 0 <= i < |s| ==> IsSpace(s[i])
  }

  lemma {:induction false} SkipAllSpace(w: string, s: string)
    requires AllSpace(w)
    ensures SkipSpace(w + s) == SkipSpace(s)
  {
    if w == "" {
      assert w + s == s;
    } else {
      SkipAllSpace(w[1..], s);
      assert (w + s)[1..] == w[1..] + s;
    }
  }

  lemma {:induction false} ReadValueSpace(libc: Libc, w: string, s: string)
    requires AllSpace(w)
    ensures ReadValue(libc, w + s) == ReadValue(libc, s)
  {
    SkipAllSpace(w, s);
  }

  /** Line break and indentation before an element, a member or a closing bracket. */
  function Margin(format: bool, indent: nat): (w: string)
    ensures AllSpace(w)
  {
    Newline(format) + Indent(format, indent)
  }

  // trees

  /** Every number node of the tree is what its text reads as. */
  predicate WfTree(libc: Libc, j: Json)
    decreases j
  {
    match j
    case Number(r, _, _, _, _) => IsNumberText(r) && j == NumberNode(libc, r)
    case Array(es) => forall i :: 0 <= i < |es| ==> WfTree(libc, es[i])
    case Object(ms) => forall i :: 0 <= i < |ms| ==> WfTree(libc, ms[i].value)
    case _ => true
  }

  lemma {:induction false} SkipSpaceTwice(s: string)
    ensures SkipSpace(SkipSpace(s)) == SkipSpace(s)
  {
    if s != "" && IsSpace(s[0]) {
      SkipSpaceTwice(s[1..]);
    }
  }

  // reading one piece after another

  lemma {:induction false} ReadObject(libc: Libc, body: string, ms: seq<Member>, rest: string)
    requires SkipSpace(body) != ""
    requires if ms == [] then SkipSpace(body) == "}" + rest
             else SkipSpace(body)[0] == '\"' && ReadMembers(libc, body) == Some((ms, rest))
    ensures ReadValue(libc, "{" + body) == Some((Object(ms), rest))
  {
    var t := "{" + body;
    assert t[1..] == body;
    assert SkipSpace(t) == t;
    if ms == [] {
      assert ("}" + rest)[1..] == rest;
    } else {
      ReadMembersSkipped(libc, body);
    }
  }

  lemma {:induction false} ReadMembersSkipped(libc: Libc, s: string)
    ensures ReadMembers(libc, SkipSpace(s)) == ReadMembers(libc, s)
  {
    SkipSpaceTwice(s);
    assert ReadMember(libc, SkipSpace(s)) == ReadMember(libc, s);
  }

  lemma {:induction false} ReadArray(libc: Libc, body: string, es: seq<Json>, rest: string)
    requires SkipSpace(body) != ""
    requires if es == [] then SkipSpace(body) == "]" + rest
             else SkipSpace(body)[0] != ']' && ReadElements(libc, body) == Some((es, rest))
    ensures ReadValue(libc, "[" + body) == Some((Array(es), rest))
  {
    var t := "[" + body;
    assert t[1..] == body;
    assert SkipSpace(t) == t;
    if es == [] {
      assert ("]" + rest)[1..] == rest;
    } else {
      ReadElementsSkipped(libc, body);
    }
  }

  lemma {:induction false} ReadElementsSkipped(libc: Libc, s: string)
    ensures ReadElements(libc, SkipSpace(s)) == ReadElements(libc, s)
  {
    SkipSpaceTwice(s);
    assert ReadValue(libc, SkipSpace(s)) == ReadValue(libc, s);
  }

  lemma {:induction false} ReadNamed(libc: Libc, key: string, s: string, value: Json, rest: string)
    requires ReadValue(libc, s) == Some((value, rest))
    ensures ReadMember(libc, Quoted(key) + (":" + s)) == Some((Member(key, value), rest))
  {
    var t := Quoted(key) + (":" + s);
    QuotedTail(key, ":" + s);
    ReadEscaped(key, false, ":" + s);
    assert SkipSpace(t) == t;
    assert (":" + s)[1..] == s;
    assert SkipSpace(":" + s) == ":" + s;
  }

  // how printed lists begin

  lemma {:induction false} BracketSplit(open: string, body: string, n: string, i: string, close: string, rest: string)
    ensures open + body + n + i + close + rest == open + (body + ((n + i) + (close + rest)))
  {
  }

  function AfterElement(es: seq<Json>, format: bool, indent: nat, rest: string): string
    requires es != []
  {
    if |es| == 1 then rest else "," + (PrintElements(es[1..], format, indent) + rest)
  }

  lemma {:induction false} PrintElementsCons(es: seq<Json>, format: bool, indent: nat, rest: string)
    requires es != []
    ensures PrintElements(es, format, indent) + rest
         == Margin(format, indent) + (Print(es[0], format, indent) + AfterElement(es, format, indent, rest))
  {
    var e := PrintElement(es[0], format, indent);
    Assoc(Margin(format, indent), Print(es[0], format, indent), AfterElement(es, format, indent, rest));
    if |es| > 1 {
      var more := PrintElements(es[1..], format, indent);
      Assoc(e + ",", more, rest);
      Assoc(e, ",", more + rest);
    }
  }

  function AfterMember(ms: seq<Member>, format: bool, indent: nat, rest: string): string
    requires ms != []
  {
    if |ms| == 1 then rest else "," + (PrintMembers(ms[1..], format, indent) + rest)
  }

  lemma {:induction false} PrintMembersCons(ms: seq<Member>, format: bool, indent: nat, rest: string)
    requires ms != []
    ensures PrintMembers(ms, format, indent) + rest
         == PrintMember(ms[0], format, indent) + AfterMember(ms, format, indent, rest)
  {
    var m := PrintMember(ms[0], format, indent);
    if |ms| > 1 {
      var more := PrintMembers(ms[1..], format, indent);
      Assoc(m + ",", more, rest);
      Assoc(m, ",", more + rest);
    }
  }

  lemma {:induction false} PrintMemberSplit(m: Member, format: bool, indent: nat, rest: string)
    ensures PrintMember(m, format, indent) + rest
         == Margin(format, indent)
            + (Quoted(m.key) + (":" + ((if format then " " else "") + (Print(m.value, format, indent) + rest))))
  {
    var space := if format then " " else "";
    var value := Print(m.value, format, indent);
    var name := PrintName(m.key, format);
    Assoc(Margin(format, indent) + name, value, rest);
    Assoc(Margin(format, indent), name, value + rest);
    Assoc(Quoted(m.key) + ":", space, value + rest);
    Assoc(Quoted(m.key), ":", space + (value + rest));
  }

  lemma {:induction false} PrintFirstChar(libc: Libc, j: Json, format: bool, indent: nat)
    requires WfTree(libc, j)
    ensures var t := Print(j, format, indent);
            t != "" && !IsSpace(t[0]) && t[0] != ']' && t[0] != '}'
  {
    if j.Number? {
      NumberTextChars(j.r);
    }
  }

  lemma {:induction false} ReadPrinted(libc: Libc, j: Json, format: bool, indent: nat, rest: string)
    requires WfTree(libc, j)
    requires EndsNumber(rest)
    ensures ReadValue(libc, Print(j, format, indent) + rest) == Some((j, rest))
    decreases j, 1
  {
    match j
    case Array(es) =>
      var tail := Margin(format, indent) + ("]" + rest);
      SkipAllSpace(Margin(format, indent), "]" + rest);
      if es != [] {
        ReadPrintedElements(libc, es, format, indent + 1, tail, rest);
      }
      ReadPrintedArray(libc, es, format, indent, tail, rest);
    case Object(ms) =>
      var tail := Margin(format, indent) + ("}" + rest);
      SkipAllSpace(Margin(format, indent), "}" + rest);
      if ms != [] {
        ReadPrintedMembers(libc, ms, format, indent + 1, tail, rest);
      }
      ReadPrintedObject(libc, ms, format, indent, tail, rest);
    case Number(r, _, _, _, _) =>
      ReadNumberText(libc, r, rest);
    case String(s) =>
      ReadQuoted(libc, s, rest);
    case _ =>
      ReadKeywords(libc, rest);
  }

  lemma {:induction false} ReadPrintedArray(libc: Libc, es: seq<Json>, format: bool, indent: nat, tail: string, rest: string)
    requires tail == Margin(format, indent) + ("]" + rest) && SkipSpace(tail) == "]" + rest
    requires var text := PrintElements(es, format, indent + 1) + tail;
             es == [] || (&& ReadElements(libc, text) == Some((es, rest))
                          && SkipSpace(text) != "" && SkipSpace(text)[0] != ']')
    ensures ReadValue(libc, Print(Array(es), format, indent) + rest) == Some((Array(es), rest))
  {
    BracketSplit(
      "[", PrintElements(es, format, indent + 1), Newline(format), Indent(format, indent), "]", rest);
    if es == [] {
      assert "" + tail == tail;
    }
    ReadArray(libc, PrintElements(es, format, indent + 1) + tail, es, rest);
  }

  lemma {:induction false} ReadPrintedObject(libc: Libc, ms: seq<Member>, format: bool, indent: nat, tail: string, rest: string)
    requires tail == Margin(format, indent) + ("}" + rest) && SkipSpace(tail) == "}" + rest
    requires var text := PrintMembers(ms, format, indent + 1) + tail;
             ms == [] || (&& ReadMembers(libc, text) == Some((ms, rest))
                          && SkipSpace(text) != "" && SkipSpace(text)[0] == '\"')
    ensures ReadValue(libc, Print(Object(ms), format, indent) + rest) == Some((Object(ms), rest))
  {
    BracketSplit(
      "{", PrintMembers(ms, format, indent + 1), Newline(format), Indent(format, indent), "}", rest);
    if ms == [] {
      assert "" + tail == tail;
    }
    ReadObject(libc, PrintMembers(ms, format, indent + 1) + tail, ms, rest);
  }

  lemma {:induction false} ReadQuoted(libc: Libc, s: string, rest: string)
    ensures ReadValue(libc, Quoted(s) + rest) == Some((Json.String(s), rest))
  {
    var t := Quoted(s) + rest;
    ReadEscaped(s, false, rest);
    QuotedTail(s, rest);
    assert SkipSpace(t) == t;
  }

  lemma {:induction false} QuotedTail(s: string, rest: string)
    ensures var t := Quoted(s) + rest; t[0] == '\"' && t[1..] == Escape(s, false) + "\"" + rest
  {
    Assoc("\"" + Escape(s, false), "\"", rest);
    Assoc("\"", Escape(s, false), "\"" + rest);
    Assoc(Escape(s, false), "\"", rest);
  }

  lemma {:induction false} ReadKeywords(libc: Libc, rest: string)
    ensures ReadValue(libc, "null" + rest) == Some((Null, rest))
    ensures ReadValue(libc, "true" + rest) == Some((True, rest))
    ensures ReadValue(libc, "false" + rest) == Some((False, rest))
  {
    assert StripPrefix("null", "null" + rest) == Some(rest);
    assert SkipSpace("null" + rest) == "null" + rest;
    assert StripPrefix("true", "true" + rest) == Some(rest);
    assert SkipSpace("true" + rest) == "true" + rest;
    assert StripPrefix("false", "false" + rest) == Some(rest);
    assert SkipSpace("false" + rest) == "false" + rest;
  }

  lemma {:induction false} ReadElementsStep(libc: Libc, s: string, e: Json, after: string, more: seq<Json>, rest: string)
    requires ReadValue(libc, s) == Some((e, after))
    requires if more == [] then SkipSpace(after) == "]" + rest
             else SkipSpace(after) != "" && SkipSpace(after)[0] == ','
                  && ReadElements(libc, SkipSpace(after)[1..]) == Some((more, rest))
    ensures ReadElements(libc, s) == Some(([e] + more, rest))
  {
    if more == [] {
      assert ("]" + rest)[1..] == rest;
      assert [e] + more == [e];
    }
  }

  lemma {:induction false} ReadIndentedValue(libc: Libc, j: Json, format: bool, indent: nat, after: string)
    requires WfTree(libc, j)
    requires ReadValue(libc, Print(j, format, indent) + after) == Some((j, after))
    ensures var text := Margin(format, indent) + (Print(j, format, indent) + after);
            && ReadValue(libc, text) == Some((j, after))
            && SkipSpace(text) != "" && SkipSpace(text)[0] != ']'
  {
    var value := Print(j, format, indent) + after;
    ReadValueSpace(libc, Margin(format, indent), value);
    SkipAllSpace(Margin(format, indent), value);
    PrintFirstChar(libc, j, format, indent);
    assert value[0] == Print(j, format, indent)[0];
    assert SkipSpace(value) == value;
  }

  lemma {:induction false} ReadPrintedElements(
      libc: Libc, es: seq<Json>, format: bool, indent: nat, tail: string, rest: string)
    requires es != [] && forall i :: 0 <= i < |es| ==> WfTree(libc, es[i])
    requires EndsNumber(tail) && SkipSpace(tail) == "]" + rest
    ensures var text := PrintElements(es, format, indent) + tail;
            && ReadElements(libc, text) == Some((es, rest))
            && SkipSpace(text) != "" && SkipSpace(text)[0] != ']'
    decreases es, 0
  {
    var after := AfterElement(es, format, indent, tail);
    ReadPrinted(libc, es[0], format, indent, after);
    if |es| > 1 {
      ReadPrintedElements(libc, es[1..], format, indent, tail, rest);
    }
    PrintElementsCons(es, format, indent, tail);
    ReadIndentedValue(libc, es[0], format, indent, after);
    ReadElementsFront(libc, es, Margin(format, indent) + (Print(es[0], format, indent) + after), after,
                      if |es| > 1 then PrintElements(es[1..], format, indent) + tail else "", rest);
  }

  lemma {:induction false} AfterComma(others: string)
    ensures var after := "," + others;
            after != "" && after[0] == ',' && SkipSpace(after) == after && after[1..] == others
  {
  }

  /** The first element has been read, and so can be the others. */
  lemma {:induction false} ReadElementsFront(
      libc: Libc, es: seq<Json>, text: string, after: string, others: string, rest: string)
    requires es != [] && ReadValue(libc, text) == Some((es[0], after))
    requires |es| == 1 ==> SkipSpace(after) == "]" + rest
    requires |es| > 1 ==> after == "," + others && ReadElements(libc, others) == Some((es[1..], rest))
    ensures ReadElements(libc, text) == Some((es, rest))
  {
    if |es| > 1 {
      AfterComma(others);
    }
    ReadElementsStep(libc, text, es[0], after, es[1..], rest);
    assert [es[0]] + es[1..] == es;
  }

  lemma {:induction false} ReadMembersStep(libc: Libc, s: string, m: Member, after: string, more: seq<Member>, rest: string)
    requires ReadMember(libc, s) == Some((m, after))
    requires if more == [] then SkipSpace(after) == "}" + rest
             else SkipSpace(after) != "" && SkipSpace(after)[0] == ','
                  && ReadMembers(libc, SkipSpace(after)[1..]) == Some((more, rest))
    ensures ReadMembers(libc, s) == Some(([m] + more, rest))
  {
    if more == [] {
      assert ("}" + rest)[1..] == rest;
      assert [m] + more == [m];
    }
  }

  lemma {:induction false} ReadPrintedMembers(
      libc: Libc, ms: seq<Member>, format: bool, indent: nat, tail: string, rest: string)
    requires ms != [] && forall i :: 0 <= i < |ms| ==> WfTree(libc, ms[i].value)
    requires EndsNumber(tail) && SkipSpace(tail) == "}" + rest
    ensures var text := PrintMembers(ms, format, indent) + tail;
            && ReadMembers(libc, text) == Some((ms, rest))
            && SkipSpace(text) != "" && SkipSpace(text)[0] == '\"'
    decreases ms, 0
  {
    var after := AfterMember(ms, format, indent, tail);
    ReadPrintedMember(libc, ms[0], format, indent, after);
    if |ms| > 1 {
      ReadPrintedMembers(libc, ms[1..], format, indent, tail, rest);
    }
    PrintMembersCons(ms, format, indent, tail);
    ReadMembersFront(libc, ms, PrintMember(ms[0], format, indent) + after, after,
                     if |ms| > 1 then PrintMembers(ms[1..], format, indent) + tail else "", rest);
  }

  /** The first member has been read, and so can be the others. */
  lemma {:induction false} ReadMembersFront(
      libc: Libc, ms: seq<Member>, text: string, after: string, others: string, rest: string)
    requires ms != [] && ReadMember(libc, text) == Some((ms[0], after))
    requires |ms| == 1 ==> SkipSpace(after) == "}" + rest
    requires |ms| > 1 ==> after == "," + others && ReadMembers(libc, others) == Some((ms[1..], rest))
    ensures ReadMembers(libc, text) == Some((ms, rest))
  {
    if |ms| > 1 {
      AfterComma(others);
    }
    ReadMembersStep(libc, text, ms[0], after, ms[1..], rest);
    assert [ms[0]] + ms[1..] == ms;
  }

  lemma {:induction false} ReadPrintedMember(
      libc: Libc, m: Member, format: bool, indent: nat, rest: string)
    requires WfTree(libc, m.value)
    requires EndsNumber(rest)
    ensures var text := PrintMember(m, format, indent) + rest;
            && ReadMember(libc, text) == Some((m, rest))
            && SkipSpace(text) != "" && SkipSpace(text)[0] == '\"'
    decreases m, 0
  {
    var space := if format then " " else "";
    var value := Print(m.value, format, indent) + rest;
    var named := Quoted(m.key) + (":" + (space + value));
    PrintMemberSplit(m, format, indent, rest);
    ReadPrinted(libc, m.value, format, indent, rest);
    ReadValueSpace(libc, space, value);
    ReadNamed(libc, m.key, space + value, m.value, rest);
    SkipAllSpace(Margin(format, indent), named);
  }

  /** Reading undoes printing, in compact and in pretty form, exactly if every string is UTF-8; else it fails. */
  lemma {:induction false} ReadDocumentPrinted(libc: Libc, j: Json, format: bool, indent: nat)
    requires WfTree(libc, j)
    ensures ReadDocument(libc, Print(j, format, indent)) == if Utf8Tree(j) then Some(j) else None
  {
    ReadPrinted(libc, j, format, indent, "");
    assert Print(j, format, indent) + "" == Print(j, format, indent);
  }
}
