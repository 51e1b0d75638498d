/**
 JSON values as the tree parser presents them, and the text the printer writes for them
 (RFC 4627 section 2). A text is a sequence of characters, one for each byte.
 */
module JsonText {
  import opened Schema
  import opened Sequences

  /**
   A number keeps its text `r`, its 64-bit integer reading `i` and its double reading `d`;
   the two flags say whether that reading is valid.
   */
  datatype Json =
    | Null
    | True
    | False
    | Number(r: string, i: int, iValid: bool, d: real, dValid: bool)
    | String(s: string)
    | Array(elements: seq<Json>)
    | Object(members: seq<Member>)

  datatype Member = Member(key: string, value: Json)

  /** What the C library decides: conversions between texts, doubles and floats. */
  datatype Libc = Libc(
    strtod: string -> (real, bool),        // double reading of a number text, and whether it is valid
    lexInt: (Kind, string) -> int,         // `stream >> integer`
    lexReal: (Kind, string) -> real,       // `stream >> double` or `stream >> float`
    show: real -> string,                  // `stream << double`, default precision
    toFloat: real -> real)                 // (float)

  // ---- decimal numbers ----

  predicate IsDigit(c: char) {
    '0' <= c <= '9'
  }

  function DigitChar(d: nat): (c: char)
    requires d < 10
    ensures IsDigit(c)
  {
    '0' + d as char
  }

  function DigitValue(c: char): nat
    requires IsDigit(c)
  {
    (c - '0') as nat
  }

  /** Decimal digits, most significant first. */
  function DecNat(n: nat): (s: string)
    ensures s != "" && forall i :: 0 <= i < |s| ==> IsDigit(s[i])
  {
    if n < 10 then [DigitChar(n)] else DecNat(n / 10) + [DigitChar(n % 10)]
  }

  /** `stream << integer`. */
  function Dec(n: int): string {
    if n < 0 then "-" + DecNat(-n) else DecNat(n)
  }

  predicate AllDigits(s: string) {
    forall i :: 0 <= i < |s| ==> IsDigit(s[i])
  }

  function NatOf(s: string): nat
    requires AllDigits(s)
  {
    if s == "" then 0 else 10 * NatOf(s[..|s| - 1]) + DigitValue(s[|s| - 1])
  }

  function SkipDigits(s: string): (t: string)
    ensures |t| <= |s|
    ensures s != "" && IsDigit(s[0]) ==> |t| < |s|
  {
    if s == "" || !IsDigit(s[0]) then s else SkipDigits(s[1..])
  }

  function SkipMinus(s: string): string {
    if s != "" && s[0] == '-' then s[1..] else s
  }

  /** `frac` of the number grammar, if there is one; None when a dot has no digit after it. */
  predicate FractionOk(s: string) {
    s != "" && s[0] == '.' ==> |s| > 1 && IsDigit(s[1])
  }

  function SkipFraction(s: string): string {
    if s != "" && s[0] == '.' then SkipDigits(s[1..]) else s
  }

  /** What is left after `int` and `frac` must be empty or an `exp`. */
  predicate ExponentOk(s: string) {
    s == "" ||
    (&& (s[0] == 'e' || s[0] == 'E')
     && var t := if |s| > 1 && (s[1] == '+' || s[1] == '-') then s[2..] else s[1..];
     t != "" && AllDigits(t))
  }

  /** `number` of RFC 4627 section 2.4. */
  predicate IsNumberText(s: string) {
    var t := SkipMinus(s);
    && t != "" && IsDigit(t[0])
    && var u := if t[0] == '0' then t[1..] else SkipDigits(t);
    FractionOk(u) && ExponentOk(SkipFraction(u))
  }

  /** A number text without fraction and exponent. */
  predicate IsIntegerText(s: string) {
    IsNumberText(s) && AllDigits(SkipMinus(s))
  }

  function IntegerOf(s: string): int
    requires IsIntegerText(s)
  {
    var n: int := NatOf(SkipMinus(s));
    if s[0] == '-' then -n else n
  }

  const TWO53: int := 0x20_0000_0000_0000

  /** Distance of neighbouring doubles around n. */
  function Ulp(n: nat): (u: nat)
    ensures u > 0
  {
    if n < TWO53 then 1 else 2 * Ulp(n / 2)
  }

  function RoundNat(n: nat): nat {
    var u := Ulp(n);
    if 2 * (n % u) < u || (2 * (n % u) == u && n / u % 2 == 0) then n / u * u else (n / u + 1) * u
  }

  /** The double nearest to an integer, ties to the even mantissa. */
  function RoundToDouble(n: int): int {
    if n < 0 then 0 - RoundNat(-n) else RoundNat(n)
  }

  /** The number node the tree parser builds from a number text. */
  function NumberNode(libc: Libc, r: string): (j: Json)
    ensures j.Number? && j.r == r
  {
    if IsIntegerText(r) && -TWO64 <= IntegerOf(r) <= TWO64 then
      var n := IntegerOf(r);
      if -TWO63 < n < TWO63 then
        Number(r, n, true, RoundToDouble(n) as real, true)
      else
        Number(r, SaturatedInteger(r), false, RoundToDouble(n) as real, true)
    else
      var (d, ok) := libc.strtod(r);
      Number(r, SaturatedInteger(r), false, d, ok)
  }

  /** The integer reading the tree parser leaves when the text is not an integer in range. */
  function SaturatedInteger(r: string): int {
    if r != "" && r[0] == '-' then -TWO63 else TWO63 - 1
  }

  // ---- string escaping ----

  /** Upper-case hexadecimal digit. */
  function HexDigit(n: nat): (c: char)
    requires n < 16
    ensures '0' <= c <= '9' || 'A' <= c <= 'F'
  {
    if n < 10 then '0' + n as char else 'A' + (n - 10) as char
  }

  function EscapeChar(c: char, solidus: bool): string {
    if c == '\r' then "\\r"
    else if c == '\n' then "\\n"
    else if c == '\\' then "\\\\"
    else if c == '/' then (if solidus then "\\/" else "/")
    else if c == '\"' then "\\\""
    else if c == '\U{0C}' then "\\f"
    else if c == '\U{08}' then "\\b"
    else if c == '\t' then "\\t"
    else if c < ' ' then "\\u00" + [HexDigit(c as int / 16), HexDigit(c as int % 16)]
    else [c]
  }

  /** The text of a string between its quotes. */
  function Escape(s: string, solidus: bool): string {
    if s == "" then "" else EscapeChar(s[0], solidus) + Escape(s[1..], solidus)
  }

  lemma {:induction false} EscapeAppend(a: string, b: string, solidus: bool)
    ensures Escape(a + b, solidus) == Escape(a, solidus) + Escape(b, solidus)
  {
    if a == "" {
      assert a + b == b;
    } else {
      assert (a + b)[1..] == a[1..] + b;
      EscapeAppend(a[1..], b, solidus);
    }
  }

  predicate NeedsEscape(c: char, solidus: bool) {
    c < ' ' || c == '\\' || c == '\"' || (c == '/' && solidus)
  }

  /** These are the characters that do not stand for themselves. */
  lemma {:induction false} NotItself(c: char, solidus: bool)
    ensures NeedsEscape(c, solidus) <==> EscapeChar(c, solidus) != [c]
  {
    if NeedsEscape(c, solidus) {
      assert |EscapeChar(c, solidus)| > 1;
    }
  }

  lemma {:induction false} EscapePlain(s: string, solidus: bool)
    requires forall i :: 0 <= i < |s| ==> !NeedsEscape(s[i], solidus)
    ensures Escape(s, solidus) == s
  {
    if s != "" {
      EscapePlain(s[1..], solidus);
      assert s == [s[0]] + s[1..];
    }
  }

  /** No control character and no quote without a backslash before it leaves the escaping. */
  predicate Unbroken(t: string) {
    if t == "" then true
    else if t[0] == '\\' then |t| > 1 && t[1] >= ' ' && Unbroken(t[2..])
    else t[0] >= ' ' && t[0] != '\"' && Unbroken(t[1..])
  }

  /** Stands for itself inside a string literal. */
  predicate PlainChar(c: char) {
    c >= ' ' && c != '\\' && c != '\"'
  }

  lemma {:induction false} UnbrokenPrefix(p: string, t: string)
    requires forall i :: 0 <= i < |p| ==> PlainChar(p[i])
    requires Unbroken(t)
    ensures Unbroken(p + t)
  {
    if p == "" {
      assert p + t == t;
    } else {
      UnbrokenPrefix(p[1..], t);
      assert (p + t)[1..] == p[1..] + t;
    }
  }

  /** A backslash, a visible character and plain characters; or one plain character. */
  predicate EscapeShape(e: string) {
    && e != ""
    && (if e[0] == '\\'
        then |e| > 1 && e[1] >= ' ' && forall i :: 2 <= i < |e| ==> PlainChar(e[i])
        else |e| == 1 && PlainChar(e[0]))
  }

  lemma {:induction false} EscapeCharShape(c: char, solidus: bool)
    ensures EscapeShape(EscapeChar(c, solidus))
  {
  }

  lemma {:induction false} UnbrokenStep(e: string, t: string)
    requires EscapeShape(e) && Unbroken(t)
    ensures Unbroken(e + t)
  {
    if e[0] == '\\' {
      UnbrokenPrefix(e[2..], t);
      assert (e + t)[2..] == e[2..] + t;
    } else {
      UnbrokenPrefix(e, t);
    }
  }

  lemma {:induction false} EscapeUnbroken(s: string, solidus: bool)
    ensures Unbroken(Escape(s, solidus))
  {
    if s != "" {
      EscapeUnbroken(s[1..], solidus);
      EscapeCharShape(s[0], solidus);
      UnbrokenStep(EscapeChar(s[0], solidus), Escape(s[1..], solidus));
    }
  }

  // ---- printing a tree ----

  const MAX_INDENT: nat := 64
  const SPACES_PER_INDENT: nat := 2

  function Spaces(n: nat): (s: string)
    ensures |s| == n
    ensures forall i :: 0 <= i < n ==> s[i] == ' '
  {
    seq(n, _ => ' ')
  }

  /** The indentation of a line; nothing in compact form. */
  function Indent(format: bool, indent: nat): (s: string)
    ensures |s| <= 128
  {
    if format then Spaces((if indent > MAX_INDENT then MAX_INDENT else indent) * SPACES_PER_INDENT) else ""
  }

  function Newline(format: bool): string {
    if format then "\n" else ""
  }

  function Quoted(s: string): string {
    "\"" + Escape(s, false) + "\""
  }

  function PrintName(name: string, format: bool): string {
    Quoted(name) + ":" + (if format then " " else "")
  }

  function Print(j: Json, format: bool, indent: nat): string
    decreases j, 1
  {
    match j
    case Null => "null"
    case True => "true"
    case False => "false"
    case Number(r, _, _, _, _) => r
    case String(s) => Quoted(s)
    case Array(es) =>
      "[" + PrintElements(es, format, indent + 1) + Newline(format) + Indent(format, indent) + "]"
    case Object(ms) =>
      "{" + PrintMembers(ms, format, indent + 1) + Newline(format) + Indent(format, indent) + "}"
  }

  function PrintElement(j: Json, format: bool, indent: nat): string
    decreases j, 2
  {
    Newline(format) + Indent(format, indent) + Print(j, format, indent)
  }

  /** The elements of an array at the given indentation, separated by commas. */
  function PrintElements(es: seq<Json>, format: bool, indent: nat): string
    decreases es
  {
    if es == [] then ""
    else if |es| == 1 then PrintElement(es[0], format, indent)
    else PrintElement(es[0], format, indent) + "," + PrintElements(es[1..], format, indent)
  }

  function PrintMember(m: Member, format: bool, indent: nat): string
    decreases m
  {
    Newline(format) + Indent(format, indent) + PrintName(m.key, format) + Print(m.value, format, indent)
  }

  /** The members of an object at the given indentation, separated by commas. */
  function PrintMembers(ms: seq<Member>, format: bool, indent: nat): string
    decreases ms
  {
    if ms == [] then ""
    else if |ms| == 1 then PrintMember(ms[0], format, indent)
    else PrintMember(ms[0], format, indent) + "," + PrintMembers(ms[1..], format, indent)
  }

  lemma {:induction false} PrintMembersSnoc(ms: seq<Member>, m: Member, format: bool, indent: nat)
    ensures PrintMembers(ms + [m], format, indent)
         == PrintMembers(ms, format, indent) + (if ms == [] then "" else ",") + PrintMember(m, format, indent)
  {
    if ms == [] {
      assert ms + [m] == [m];
    } else {
      var first, last := PrintMember(ms[0], format, indent), PrintMember(m, format, indent);
      var rest := PrintMembers(ms[1..], format, indent);
      assert (ms + [m])[1..] == ms[1..] + [m];
      PrintMembersSnoc(ms[1..], m, format, indent);
      if |ms| == 1 {
        assert "" + "" + last == last;
      } else {
        Assoc(first + ",", rest + ",", last);
        Assoc(first + ",", rest, ",");
      }
    }
  }

  lemma {:induction false} PrintElementsSnoc(es: seq<Json>, e: Json, format: bool, indent: nat)
    ensures PrintElements(es + [e], format, indent)
         == PrintElements(es, format, indent) + (if es == [] then "" else ",") + PrintElement(e, format, indent)
  {
    if es == [] {
      assert es + [e] == [e];
    } else {
      var first, last := PrintElement(es[0], format, indent), PrintElement(e, format, indent);
      var rest := PrintElements(es[1..], format, indent);
      assert (es + [e])[1..] == es[1..] + [e];
      PrintElementsSnoc(es[1..], e, format, indent);
      if |es| == 1 {
        assert "" + "" + last == last;
      } else {
        Assoc(first + ",", rest + ",", last);
        Assoc(first + ",", rest, ",");
      }
    }
  }
}
