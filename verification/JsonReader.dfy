/**
 A reference reader for JSON texts (RFC 4627 section 2), standing in for the tree parser library.
 Each reading function takes the remaining text and returns the value with what is left after it.
 */
module JsonReader {
  import opened Options
  import opened JsonText

  // ---- lexical level ----

  predicate IsSpace(c: char) {
    c == ' ' || c == '\t' || c == '\n' || c == '\r'
  }

  function SkipSpace(s: string): (t: string)
    ensures |t| <= |s|
    ensures t != "" ==> !IsSpace(t[0])
  {
    if s != "" && IsSpace(s[0]) then SkipSpace(s[1..]) else s
  }

  predicate IsNumberChar(c: char) {
    IsDigit(c) || c == '-' || c == '+' || c == '.' || c == 'e' || c == 'E'
  }

  /** Number of leading characters that can belong to a number. */
  function NumberSpan(s: string): (n: nat)
    ensures n <= |s|
  {
    if s != "" && IsNumberChar(s[0]) then 1 + NumberSpan(s[1..]) else 0
  }

  function HexValue(c: char): (r: Option<nat>)
    ensures r.Some? ==> r.value < 16
  {
    if '0' <= c <= '9' then Some((c - '0') as nat)
    else if 'A' <= c <= 'F' then Some((c - 'A') as nat + 10)
    else if 'a' <= c <= 'f' then Some((c - 'a') as nat + 10)
    else None
  }

  /** Four hexadecimal digits. */
  function Hex4(s: string): (r: Option<nat>)
    ensures r.Some? ==> |s| >= 4 && r.value < 0x10000
  {
    if |s| < 4 then None else
      var a :- HexValue(s[0]);
      var b :- HexValue(s[1]);
      var c :- HexValue(s[2]);
      var d :- HexValue(s[3]);
      Some(a * 0x1000 + b * 0x100 + c * 0x10 + d)
  }

  /** The bytes of a code point in UTF-8. */
  function Utf8(cp: nat): string
    requires cp < 0x110000
  {
    if cp < 0x80 then [cp as char]
    else if cp < 0x800 then [(0xC0 + cp / 0x40) as char, (0x80 + cp % 0x40) as char]
    else if cp < 0x10000 then
      [(0xE0 + cp / 0x1000) as char, (0x80 + cp / 0x40 % 0x40) as char, (0x80 + cp % 0x40) as char]
    else
      [(0xF0 + cp / 0x40000) as char, (0x80 + cp / 0x1000 % 0x40) as char,
       (0x80 + cp / 0x40 % 0x40) as char, (0x80 + cp % 0x40) as char]
  }

  /** A `\u` escape after the two characters `\u`: four digits, or a surrogate pair. */
  function ReadUnicode(s: string): (r: Option<(string, string)>)
    ensures r.Some? ==> |r.value.1| < |s|
  {
    var hi :- Hex4(s);
    if 0xD800 <= hi < 0xDC00 then
      if |s| < 6 || s[4] != '\\' || s[5] != 'u' then None else
        var lo :- Hex4(s[6..]);
        if 0xDC00 <= lo < 0xE000 then
          Some((Utf8(0x10000 + (hi - 0xD800) * 0x400 + (lo - 0xDC00)), s[10..]))
        else None
    else if 0xDC00 <= hi < 0xE000 then None
    else Some((Utf8(hi), s[4..]))
  }

  /** An escape after its backslash: the bytes it stands for. */
  function ReadEscape(s: string): (r: Option<(string, string)>)
    ensures r.Some? ==> |r.value.1| < |s|
  {
    if s == "" then None
    else if s[0] == '\"' || s[0] == '\\' || s[0] == '/' then Some(([s[0]], s[1..]))
    else if s[0] == 'b' then Some((['\U{08}'], s[1..]))
    else if s[0] == 'f' then Some((['\U{0C}'], s[1..]))
    else if s[0] == 'n' then Some((['\n'], s[1..]))
    else if s[0] == 'r' then Some((['\r'], s[1..]))
    else if s[0] == 't' then Some((['\t'], s[1..]))
    else if s[0] == 'u' then ReadUnicode(s[1..])
    else None
  }

  /** The rest of a string after its opening quote, up to and including the closing one. */
  function ReadStringBody(s: string): (r: Option<(string, string)>)
    ensures r.Some? ==> |r.value.1| < |s|
    decreases |s|
  {
    if s == "" then None
    else if s[0] == '\"' then Some(("", s[1..]))
    else if s[0] == '\\' then
      var (bytes, rest) :- ReadEscape(s[1..]);
      var (more, rest') :- ReadStringBody(rest);
      Some((bytes + more, rest'))
    else if s[0] < ' ' then None
    else
      var (more, rest) :- ReadStringBody(s[1..]);
      Some(([s[0]] + more, rest))
  }

  function StripPrefix(p: string, s: string): (r: Option<string>)
    ensures r.Some? ==> s == p + r.value
  {
    if p <= s then Some(s[|p|..]) else None
  }

  // ---- values ----

  function ReadNumber(libc: Libc, s: string): (r: Option<(Json, string)>)
    ensures r.Some? ==> |r.value.1| < |s|
  {
    var n := NumberSpan(s);
    if IsNumberText(s[..n]) then Some((NumberNode(libc, s[..n]), s[n..])) else None
  }

  /** `value`, with white space before it. */
  function ReadValue(libc: Libc, s: string): (r: Option<(Json, string)>)
    ensures r.Some? ==> |r.value.1| < |s|
    decreases |s|, 2
  {
    var t := SkipSpace(s);
    if t == "" then None
    else if t[0] == '{' then
      var u := SkipSpace(t[1..]);
      if u != "" && u[0] == '}' then Some((Object([]), u[1..]))
      else
        var (ms, rest) :- ReadMembers(libc, u);
        Some((Object(ms), rest))
    else if t[0] == '[' then
      var u := SkipSpace(t[1..]);
      if u != "" && u[0] == ']' then Some((Array([]), u[1..]))
      else
        var (es, rest) :- ReadElements(libc, u);
        Some((Array(es), rest))
    else if t[0] == '\"' then
      var (str, rest) :- ReadStringBody(t[1..]);
      Some((Json.String(str), rest))
    else if t[0] == 'n' then
      var rest :- StripPrefix("null", t);
      Some((Null, rest))
    else if t[0] == 't' then
      var rest :- StripPrefix("true", t);
      Some((True, rest))
    else if t[0] == 'f' then
      var rest :- StripPrefix("false", t);
      Some((False, rest))
    else ReadNumber(libc, t)
  }

  /** `member`, with white space before it. */
  function ReadMember(libc: Libc, s: string): (r: Option<(Member, string)>)
    ensures r.Some? ==> |r.value.1| < |s|
    decreases |s|, 0
  {
    var t := SkipSpace(s);
    if t == "" || t[0] != '\"' then None else
      var (key, rest) :- ReadStringBody(t[1..]);
      var u := SkipSpace(rest);
      if u == "" || u[0] != ':' then None else
        var (value, rest') :- ReadValue(libc, u[1..]);
        Some((Member(key, value), rest'))
  }

  /** One or more members and the closing brace. */
  function ReadMembers(libc: Libc, s: string): (r: Option<(seq<Member>, string)>)
    ensures r.Some? ==> |r.value.1| < |s|
    decreases |s|, 1
  {
    var (m, rest) :- ReadMember(libc, s);
    var u := SkipSpace(rest);
    if u != "" && u[0] == '}' then Some(([m], u[1..]))
    else if u != "" && u[0] == ',' then
      var (ms, rest') :- ReadMembers(libc, u[1..]);
      Some(([m] + ms, rest'))
    else None
  }

  /** One or more elements and the closing bracket. */
  function ReadElements(libc: Libc, s: string): (r: Option<(seq<Json>, string)>)
    ensures r.Some? ==> |r.value.1| < |s|
    decreases |s|, 3
  {
    var (e, rest) :- ReadValue(libc, s);
    var u := SkipSpace(rest);
    if u != "" && u[0] == ']' then Some(([e], u[1..]))
    else if u != "" && u[0] == ',' then
      var (es, rest') :- ReadElements(libc, u[1..]);
      Some(([e] + es, rest'))
    else None
  }

  // ---- the bytes of strings ----

  /** How many bytes follow the first byte of a character beyond ASCII; 0 if it cannot be a first byte. */
  function Following(c: char): nat {
    if 0xC0 <= c as int < 0xE0 then 1
    else if 0xE0 <= c as int < 0xF0 then 2
    else if 0xF0 <= c as int < 0xF8 then 3
    else 0
  }

  predicate IsFollowing(c: char) {
    0x80 <= c as int < 0xC0
  }

  /** The octet patterns of section 3 of RFC 3629. */
  predicate IsUtf8(s: string) {
    if s == "" then true
    else if s[0] as int < 0x80 then IsUtf8(s[1..])
    else
      var n := Following(s[0]);
      0 < n < |s| && (forall i :: 1 <= i <= n ==> IsFollowing(s[i])) && IsUtf8(s[n + 1..])
  }

  /** Every string and name in the tree is UTF-8. */
  predicate Utf8Tree(j: Json)
    decreases j
  {
    match j
    case String(s) => IsUtf8(s)
    case Array(es) => forall i :: 0 <= i < |es| ==> Utf8Tree(es[i])
    case Object(ms) => forall i :: 0 <= i < |ms| ==> IsUtf8(ms[i].key) && Utf8Tree(ms[i].value)
    case _ => true
  }

  /**
   A whole JSON text: one value, nothing but white space after it. A string that is not UTF-8
   is an error wherever it is.
   */
  function ReadDocument(libc: Libc, s: string): Option<Json> {
    var (j, rest) :- ReadValue(libc, s);
    if SkipSpace(rest) == "" && Utf8Tree(j) then Some(j) else None
  }
}
