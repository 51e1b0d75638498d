/**
 What the parser makes of literal texts: for every kind of scalar field and every kind of JSON
 value, the value that is set or added, or the failure.
 */
module JsonLiterals {
  import opened Options
  import opened Schema
  import opened Sequences
  import opened JsonText
  import opened JsonReader
  import opened JsonReadBack
  import opened JsonPretty
  import opened JsonMessage
  import opened JsonMerge
  import opened JsonRoundTrip
  import opened JsonParser
  import opened JsonLaws

  // ---- an object with one pair ----

  /** The text with one pair for the field: the value itself or, for a repeated field, an array that holds it. */
  function PairText(f: Field, value: string): string {
    "{\"" + f.name + "\":" + (if f.repeated then "[" + value + "]" else value) + "}"
  }

  /** The text sets the field to v or, if it is repeated, adds v to it; nothing else changes. */
  predicate Gives(libc: Libc, s: Schema, ty: nat, target: Msg, i: nat, value: string, v: Value)
    requires WfSchema(s) && WellTyped(s, ty, target) && i < |s[ty]| && SlotOk(s, s[ty][i], target.slots[i])
  {
    Parsed(libc, s, ty, target, PairText(s[ty][i], value))
    == Outcome(Ok, Msg(target.slots[i := if s[ty][i].repeated then Many(target.slots[i].vs + [v]) else One(v)]))
  }

  /** The text is an error, and the target stays as it was. */
  predicate Fails(libc: Libc, s: Schema, ty: nat, target: Msg, i: nat, value: string)
    requires WfSchema(s) && WellTyped(s, ty, target) && i < |s[ty]|
  {
    Parsed(libc, s, ty, target, PairText(s[ty][i], value)) == Outcome(Mismatch, target)
  }

  /** The text ends the program: a null enum value reaches the setter. */
  predicate Aborts(libc: Libc, s: Schema, ty: nat, target: Msg, i: nat, value: string)
    requires WfSchema(s) && WellTyped(s, ty, target) && i < |s[ty]|
  {
    Parsed(libc, s, ty, target, PairText(s[ty][i], value)) == Outcome(Crash, target)
  }

  /** The two readings of an outcome of a conversion, for a field that may be repeated. */
  predicate Follows(libc: Libc, s: Schema, ty: nat, target: Msg, i: nat, value: string, c: Conversion)
    requires WfSchema(s) && WellTyped(s, ty, target) && i < |s[ty]| && SlotOk(s, s[ty][i], target.slots[i])
  {
    match c
    case Converted(v) => Gives(libc, s, ty, target, i, value, v)
    case Refused => Fails(libc, s, ty, target, i, value)
    case Crashed => Aborts(libc, s, ty, target, i, value)
  }

  lemma {:induction false} PrintArrayOfOne(node: Json, indent: nat)
    ensures Print(Array([node]), false, indent) == "[" + Print(node, false, 0) + "]"
  {
    PrintUnindented(node, indent + 1);
    var p := Print(node, false, 0);
    assert PrintElements([node], false, indent + 1) == PrintElement(node, false, indent + 1);
    assert PrintElement(node, false, indent + 1) == "" + "" + p;
    assert "" + "" + p == p;
    assert "[" + p + "" + "" + "]" == "[" + p + "]";
  }

  lemma {:induction false} PrintObjectOfOne(m: Member)
    ensures Print(Object([m]), false, 0) == "{" + (Quoted(m.key) + ":" + Print(m.value, false, 0)) + "}"
  {
    PrintUnindented(m.value, 1);
    var p := Quoted(m.key) + ":" + Print(m.value, false, 0);
    assert PrintMembers([m], false, 1) == PrintMember(m, false, 1);
    assert PrintName(m.key, false) == Quoted(m.key) + ":";
    PrintMemberForm(m, false, 1);
    assert PrintMember(m, false, 1) == "" + p;
    assert "" + p == p;
    assert "{" + p + "" + "" + "}" == "{" + p + "}";
  }

  /** The text of an object with one pair. */
  lemma {:induction false} PairPrints(types: nat, f: Field, node: Json)
    requires WfField(types, f)
    ensures var value := if f.repeated then Array([node]) else node;
            Print(Object([Member(f.name, value)]), false, 0) == PairText(f, Print(node, false, 0))
  {
    var value := if f.repeated then Array([node]) else node;
    PrintArrayOfOne(node, 0);
    PrintObjectOfOne(Member(f.name, value));
    EscapePlain(f.name, false);
    PairParts(f.name, Print(value, false, 0));
  }

  lemma {:induction false} PairParts(name: string, value: string)
    ensures "{" + ("\"" + name + "\"" + ":" + value) + "}" == "{\"" + name + "\":" + value + "}"
  {
  }

  /** The compact text does not depend on the depth. */
  lemma {:induction false} PrintUnindented(j: Json, indent: nat)
    ensures Print(j, false, indent) == Print(j, false, 0)
    decreases j, 1
  {
    match j
    case Array(es) =>
      ElementsUnindented(es, indent + 1);
      ElementsUnindented(es, 1);
    case Object(ms) =>
      MembersUnindented(ms, indent + 1);
      MembersUnindented(ms, 1);
    case _ =>
  }

  lemma {:induction false} ElementsUnindented(es: seq<Json>, indent: nat)
    ensures PrintElements(es, false, indent) == PrintElements(es, false, 0)
    decreases es, 0
  {
    if es != [] {
      PrintUnindented(es[0], indent);
      ElementsUnindented(es[1..], indent);
    }
  }

  lemma {:induction false} MembersUnindented(ms: seq<Member>, indent: nat)
    ensures PrintMembers(ms, false, indent) == PrintMembers(ms, false, 0)
    decreases ms, 0
  {
    if ms != [] {
      MemberUnindented(ms[0], indent);
      MembersUnindented(ms[1..], indent);
    }
  }

  lemma {:induction false} MemberUnindented(m: Member, indent: nat)
    ensures PrintMember(m, false, indent) == PrintMember(m, false, 0)
    decreases m, 0
  {
    PrintUnindented(m.value, indent);
  }

  /** A printed document parses as its tree is applied. */
  lemma {:induction false} ParsedPrinted(libc: Libc, s: Schema, ty: nat, target: Msg, j: Json)
    requires WfSchema(s) && WellTyped(s, ty, target) && WfTree(libc, j) && Utf8Tree(j)
    ensures Parsed(libc, s, ty, target, Print(j, false, 0)) == ApplyObject(libc, s, ty, target, j)
  {
    PrintClean(libc, j, false, 0);
    CStrKeeps(Print(j, false, 0));
    ReadDocumentPrinted(libc, j, false, 0);
  }

  lemma {:induction false} NameOfField(libc: Libc, s: Schema, ty: nat, i: nat)
    requires WfSchema(s) && ty < |s| && i < |s[ty]|
    ensures var name := s[ty][i].name;
            Quoted(name) == "\"" + name + "\"" && IsUtf8(name) && FindField(s[ty], CStr(name)) == i
  {
    assert WfDescriptor(|s|, s[ty]) && WfField(|s|, s[ty][i]);
    EscapePlain(s[ty][i].name, false);
    IdentifierUtf8(s[ty][i].name);
    CStrIdentifier(s[ty][i].name);
    FindOwnField(s[ty], i);
  }

  lemma {:induction false} OneMember(libc: Libc, s: Schema, ty: nat, m: Msg, member: Member)
    requires WfSchema(s) && WellTyped(s, ty, m)
    ensures ApplyObject(libc, s, ty, m, Object([member])) == ApplyMember(libc, s, ty, m, member)
  {
    var out := ApplyMember(libc, s, ty, m, member);
    assert [member][1..] == [];
    assert ApplyMembers(libc, s, ty, out.m, []) == Outcome(Ok, out.m);
  }

  lemma {:induction false} OneElement(libc: Libc, s: Schema, ty: nat, i: nat, m: Msg, node: Json)
    requires WfSchema(s) && WellTyped(s, ty, m) && i < |s[ty]| && s[ty][i].repeated
    ensures ApplyElements(libc, s, ty, i, m, [node]) == ApplyElement(libc, s, ty, i, m, node)
  {
    var out := ApplyElement(libc, s, ty, i, m, node);
    assert [node][1..] == [];
    assert ApplyElements(libc, s, ty, i, out.m, []) == Outcome(Ok, out.m);
  }

  lemma {:induction false} PairInTree(libc: Libc, s: Schema, ty: nat, target: Msg, i: nat, value: Json)
    requires WfSchema(s) && WellTyped(s, ty, target) && i < |s[ty]| && value.Array? == s[ty][i].repeated
    ensures ApplyObject(libc, s, ty, target, Object([Member(s[ty][i].name, value)]))
         == if s[ty][i].repeated then ApplyElements(libc, s, ty, i, target, value.elements)
            else ApplySingular(libc, s, ty, i, target, value)
  {
    NameOfField(libc, s, ty, i);
    OneMember(libc, s, ty, target, Member(s[ty][i].name, value));
  }

  /** The object with one pair for the field. */
  function PairTree(f: Field, node: Json): Json {
    Object([Member(f.name, if f.repeated then Array([node]) else node)])
  }

  lemma {:induction false} PairIsWf(libc: Libc, types: nat, f: Field, node: Json)
    requires WfField(types, f) && WfTree(libc, node) && Utf8Tree(node)
    ensures WfTree(libc, PairTree(f, node)) && Utf8Tree(PairTree(f, node))
  {
    var value := if f.repeated then Array([node]) else node;
    IdentifierUtf8(f.name);
    assert WfTree(libc, value) && Utf8Tree(value);
  }

  /** The text of one pair is applied to its field. */
  lemma {:induction false} PairApplied(libc: Libc, s: Schema, ty: nat, target: Msg, i: nat, node: Json)
    requires WfSchema(s) && WellTyped(s, ty, target) && i < |s[ty]| && WfField(|s|, s[ty][i])
    requires WfTree(libc, node) && Utf8Tree(node) && !node.Array?
    ensures Parsed(libc, s, ty, target, PairText(s[ty][i], Print(node, false, 0)))
         == if s[ty][i].repeated then ApplyElements(libc, s, ty, i, target, [node])
            else ApplySingular(libc, s, ty, i, target, node)
  {
    var f := s[ty][i];
    var value := if f.repeated then Array([node]) else node;
    PairIsWf(libc, |s|, f, node);
    PairPrints(|s|, f, node);
    PairInTree(libc, s, ty, target, i, value);
    ParsedPrinted(libc, s, ty, target, PairTree(f, node));
  }

  lemma {:induction false} PairParsed(libc: Libc, s: Schema, ty: nat, target: Msg, i: nat, node: Json)
    requires WfSchema(s) && WellTyped(s, ty, target) && i < |s[ty]| && SlotOk(s, s[ty][i], target.slots[i])
    requires !s[ty][i].kind.Message? && WfTree(libc, node) && Utf8Tree(node) && !node.Array?
    ensures Follows(libc, s, ty, target, i, Print(node, false, 0), Convert(libc, s[ty][i].kind, node))
  {
    assert WfDescriptor(|s|, s[ty]) && WfField(|s|, s[ty][i]);
    PairApplied(libc, s, ty, target, i, node);
    if s[ty][i].repeated {
      OneElement(libc, s, ty, i, target, node);
    }
  }

  // ---- the literals ----

  predicate ScalarField(s: Schema, ty: nat, target: Msg, i: nat) {
    && WfSchema(s) && WellTyped(s, ty, target) && i < |s[ty]| && SlotOk(s, s[ty][i], target.slots[i])
    && WfField(|s|, s[ty][i]) && !s[ty][i].kind.Message?
  }

  lemma {:induction false} Keywords(libc: Libc, s: Schema, ty: nat, target: Msg, i: nat)
    requires ScalarField(s, ty, target, i)
    ensures Follows(libc, s, ty, target, i, "true", Convert(libc, s[ty][i].kind, True))
    ensures Follows(libc, s, ty, target, i, "false", Convert(libc, s[ty][i].kind, False))
    ensures Follows(libc, s, ty, target, i, "null", Convert(libc, s[ty][i].kind, Null))
    ensures Follows(libc, s, ty, target, i, "{}", Convert(libc, s[ty][i].kind, Object([])))
  {
    PairParsed(libc, s, ty, target, i, True);
    PairParsed(libc, s, ty, target, i, False);
    PairParsed(libc, s, ty, target, i, Null);
    PairParsed(libc, s, ty, target, i, Object([]));
    PrintEmptyObject();
  }

  lemma {:induction false} PrintEmptyObject()
    ensures Print(Object([]), false, 0) == "{}"
  {
    assert "{" + "" + "" + "" + "}" == "{}";
  }

  /** A byte string and what is seen of it through a C string: everything up to the first NUL. */
  predicate SeenAs(str: string, c: string) {
    c <= str && '\0' !in c && (|c| < |str| ==> str[|c|] == '\0')
  }

  lemma {:induction false} CStrIs(str: string, c: string)
    requires SeenAs(str, c)
    ensures CStr(str) == c
  {
    if c != "" {
      assert str[0] == c[0] != '\0';
      assert c == [c[0]] + c[1..] && c[1..] <= str[1..];
      assert forall k :: 0 <= k < |c| - 1 ==> c[1..][k] == c[k + 1];
      CStrIs(str[1..], c[1..]);
    }
  }

  lemma {:induction false} Strings(libc: Libc, s: Schema, ty: nat, target: Msg, i: nat, str: string, c: string)
    requires ScalarField(s, ty, target, i) && IsUtf8(str) && SeenAs(str, c)
    ensures CStr(str) == c
    ensures Follows(libc, s, ty, target, i, Quoted(str), Convert(libc, s[ty][i].kind, Json.String(str)))
  {
    CStrIs(str, c);
    PairParsed(libc, s, ty, target, i, Json.String(str));
  }

  lemma {:induction false} Numbers(libc: Libc, s: Schema, ty: nat, target: Msg, i: nat, r: string)
    requires ScalarField(s, ty, target, i) && IsNumberText(r)
    ensures Follows(libc, s, ty, target, i, r, Convert(libc, s[ty][i].kind, NumberNode(libc, r)))
  {
    PairParsed(libc, s, ty, target, i, NumberNode(libc, r));
  }

  /** A number text that is no integer of 64 bits: it has a fraction, an exponent, or too many digits. */
  predicate NoInteger(r: string) {
    IsNumberText(r) && (IsIntegerText(r) ==> IntegerOf(r) < -0x1_0000_0000_0000_0000 || IntegerOf(r) > 0x1_0000_0000_0000_0000)
  }

  // ---- bool ----

  /** `true`, `false`, `null` and an object in a bool field. */
  lemma {:induction false} BoolFromKeyword(libc: Libc, s: Schema, ty: nat, target: Msg, i: nat)
    requires ScalarField(s, ty, target, i) && s[ty][i].kind.Bool?
    ensures Gives(libc, s, ty, target, i, "true", Truth(true))
    ensures Gives(libc, s, ty, target, i, "false", Truth(false))
    ensures Fails(libc, s, ty, target, i, "null")
    ensures Fails(libc, s, ty, target, i, "{}")
  {
    Keywords(libc, s, ty, target, i);
  }

  /** The text is the word in small and capital letters. */
  predicate Spells(text: string, word: string) {
    |text| == |word| && forall k :: 0 <= k < |word| ==> text[k] == word[k] || text[k] as int == word[k] as int - 32
  }

  lemma {:induction false} UpperSpells(text: string, word: string, upper: string)
    requires |word| == |upper|
    requires forall k :: 0 <= k < |word| ==> 'a' <= word[k] <= 'z' && upper[k] as int == word[k] as int - 32
    ensures Upper(text) == upper <==> Spells(text, word)
  {
    var t := Upper(text);
    if |text| == |word| {
      forall k | 0 <= k < |word|
        ensures t[k] == upper[k] <==> text[k] == word[k] || text[k] as int == word[k] as int - 32
      {
        assert t[k] == ToUpper(text[k]);
      }
    }
  }

  lemma {:induction false} UpperOne(text: string)
    ensures Upper(text) == "1" <==> text == "1"
  {
    if |text| == 1 {
      assert Upper(text)[0] == ToUpper(text[0]);
    }
  }

  /** A string in a bool field. */
  lemma {:induction false} BoolFromString(libc: Libc, s: Schema, ty: nat, target: Msg, i: nat, str: string, c: string)
    requires ScalarField(s, ty, target, i) && s[ty][i].kind.Bool? && IsUtf8(str) && SeenAs(str, c)
    ensures Gives(libc, s, ty, target, i, Quoted(str), Truth(Spells(c, "true") || Spells(c, "yes") || c == "1"))
  {
    Strings(libc, s, ty, target, i, str, c);
    BoolReading(libc, str, c);
  }

  lemma {:induction false} BoolReading(libc: Libc, str: string, c: string)
    requires CStr(str) == c
    ensures Convert(libc, Bool, Json.String(str))
         == Converted(Truth(Spells(c, "true") || Spells(c, "yes") || c == "1"))
  {
    UpperSpells(c, "true", "TRUE");
    UpperSpells(c, "yes", "YES");
    UpperOne(c);
  }

  /** A number in a bool field. */
  lemma {:induction false} BoolFromNumber(libc: Libc, s: Schema, ty: nat, target: Msg, i: nat, r: string)
    requires ScalarField(s, ty, target, i) && s[ty][i].kind.Bool? && IsNumberText(r)
    ensures !NoInteger(r) ==> Gives(libc, s, ty, target, i, r, Truth(IntegerOf(r) != 0))
    ensures NoInteger(r) && libc.strtod(r).1 ==> Gives(libc, s, ty, target, i, r, Truth(libc.strtod(r).0 != 0.0))
    ensures NoInteger(r) && !libc.strtod(r).1 ==> Fails(libc, s, ty, target, i, r)
  {
    Numbers(libc, s, ty, target, i, r);
    if !NoInteger(r) {
      RoundsToZero(IntegerOf(r));
    }
  }

  // ---- integers ----

  predicate IsInteger(k: Kind) {
    k.Int32? || k.Int64? || k.UInt32? || k.UInt64?
  }

  /** v is the value of the kind that n wraps around to. */
  predicate WrapsTo(k: Kind, n: int, v: int) {
    && IsInteger(k) && ScalarOk(k, Num(v))
    && (v - n) % (if k.Int32? || k.UInt32? then 0x1_0000_0000 else 0x1_0000_0000_0000_0000) == 0
  }

  lemma {:induction false} CastWraps(k: Kind, n: int, v: int)
    requires WrapsTo(k, n, v)
    ensures Cast(k, n) == v
  {
  }

  /** The double nearest to n, for n from 2^63 to 2^64: a multiple of 2048, on a tie of 4096. */
  predicate IsNearest(n: int, d: int) {
    && d % 2048 == 0
    && -1024 <= d - n <= 1024
    && (d - n == 1024 || d - n == -1024 ==> d % 4096 == 0)
  }

  lemma {:induction false} OneNearest(n: int, d: int, d': int)
    requires IsNearest(n, d) && IsNearest(n, d')
    ensures d == d'
  {
  }

  lemma {:induction false} RoundedIsNearest(n: int)
    requires 0x8000_0000_0000_0000 <= n < 0x1_0000_0000_0000_0000
    ensures IsNearest(n, RoundToDouble(n))
  {
    UlpFrom63(n);
    var q := RoundNatNearest(n);
    var d := q * 2048;
    assert d % 2048 == 0;
    assert q % 2 == 0 ==> d % 4096 == 0;
  }

  lemma {:induction false} NearestIsRounded(n: int, d: int)
    requires 0x8000_0000_0000_0000 <= n <= 0x1_0000_0000_0000_0000 && IsNearest(n, d)
    ensures RoundToDouble(n) == d
  {
    if n == 0x1_0000_0000_0000_0000 {
      UlpFrom63(n / 2);
      assert Ulp(n) == 4096;
      assert n % 4096 == 0 && n / 4096 * 4096 == n;
      OneNearest(n, d, n);
    } else {
      RoundedIsNearest(n);
      OneNearest(n, d, RoundToDouble(n));
    }
  }

  /** An integer text in an integer field. */
  lemma {:induction false} IntegerFromInteger(
      libc: Libc, s: Schema, ty: nat, target: Msg, i: nat, r: string, v: int)
    requires ScalarField(s, ty, target, i) && IsIntegerText(r)
    requires -0x8000_0000_0000_0000 < IntegerOf(r) < 0x8000_0000_0000_0000
    requires WrapsTo(s[ty][i].kind, IntegerOf(r), v)
    ensures Gives(libc, s, ty, target, i, r, Num(v))
  {
    Numbers(libc, s, ty, target, i, r);
    CastWraps(s[ty][i].kind, IntegerOf(r), v);
  }

  /** An integer text beyond 63 bits goes through the nearest double. */
  lemma {:induction false} IntegerFromLargeInteger(
      libc: Libc, s: Schema, ty: nat, target: Msg, i: nat, r: string, d: int, v: int)
    requires ScalarField(s, ty, target, i) && IsIntegerText(r)
    requires var n := IntegerOf(r);
             if n < 0 then 0x8000_0000_0000_0000 <= -n <= 0x1_0000_0000_0000_0000 && IsNearest(-n, -d)
             else 0x8000_0000_0000_0000 <= n <= 0x1_0000_0000_0000_0000 && IsNearest(n, d)
    requires WrapsTo(s[ty][i].kind, d, v)
    ensures Gives(libc, s, ty, target, i, r, Num(v))
  {
    var n := IntegerOf(r);
    Numbers(libc, s, ty, target, i, r);
    NearestIsRounded(if n < 0 then -n else n, if n < 0 then -d else d);
    assert RoundToDouble(n) == d;
    TruncateInteger(d);
    CastWraps(s[ty][i].kind, d, v);
  }

  /** t is d without its fraction. */
  predicate Truncates(d: real, t: int) {
    if d < 0.0 then t <= 0 && d <= t as real < d + 1.0 else t >= 0 && d - 1.0 < t as real <= d
  }

  lemma {:induction false} TruncateIs(d: real, t: int)
    requires Truncates(d, t)
    ensures Truncate(d) == t
  {
    if d < 0.0 {
      FloorIs(-d, -t);
    } else {
      FloorIs(d, t);
    }
  }

  lemma {:induction false} FloorIs(d: real, t: int)
    requires t as real <= d < t as real + 1.0
    ensures d.Floor == t
  {
  }

  /** A number with a fraction or exponent, or beyond 64 bits, in an integer field: the double, truncated towards zero. */
  lemma {:induction false} IntegerFromReal(
      libc: Libc, s: Schema, ty: nat, target: Msg, i: nat, r: string, t: int, v: int)
    requires ScalarField(s, ty, target, i) && NoInteger(r)
    requires libc.strtod(r).1 && Truncates(libc.strtod(r).0, t) && WrapsTo(s[ty][i].kind, t, v)
    ensures Gives(libc, s, ty, target, i, r, Num(v))
  {
    Numbers(libc, s, ty, target, i, r);
    TruncateIs(libc.strtod(r).0, t);
    CastWraps(s[ty][i].kind, t, v);
  }

  /** A number that is no double either is read by a string stream. */
  lemma {:induction false} IntegerFromStream(
      libc: Libc, s: Schema, ty: nat, target: Msg, i: nat, r: string, v: int)
    requires ScalarField(s, ty, target, i) && NoInteger(r) && !libc.strtod(r).1
    requires WrapsTo(s[ty][i].kind, libc.lexInt(s[ty][i].kind, r), v)
    ensures Gives(libc, s, ty, target, i, r, Num(v))
  {
    Numbers(libc, s, ty, target, i, r);
    NumberTextChars(r);
    CStrKeeps(r);
    CastWraps(s[ty][i].kind, libc.lexInt(s[ty][i].kind, r), v);
  }

  /** So is a string in an integer field. */
  lemma {:induction false} IntegerFromString(
      libc: Libc, s: Schema, ty: nat, target: Msg, i: nat, str: string, c: string, v: int)
    requires ScalarField(s, ty, target, i) && IsUtf8(str) && SeenAs(str, c)
    requires WrapsTo(s[ty][i].kind, libc.lexInt(s[ty][i].kind, c), v)
    ensures Gives(libc, s, ty, target, i, Quoted(str), Num(v))
  {
    Strings(libc, s, ty, target, i, str, c);
    CastWraps(s[ty][i].kind, libc.lexInt(s[ty][i].kind, c), v);
  }

  /** What an integer, real or string field does not take. */
  lemma {:induction false} NotTaken(libc: Libc, s: Schema, ty: nat, target: Msg, i: nat)
    requires ScalarField(s, ty, target, i) && !s[ty][i].kind.Bool?
    ensures Fails(libc, s, ty, target, i, "true")
    ensures Fails(libc, s, ty, target, i, "false")
    ensures Fails(libc, s, ty, target, i, "null")
    ensures Fails(libc, s, ty, target, i, "{}")
  {
    Keywords(libc, s, ty, target, i);
  }

  // ---- reals ----

  /** An integer text of up to 53 bits in a double or float field. */
  lemma {:induction false} RealFromInteger(libc: Libc, s: Schema, ty: nat, target: Msg, i: nat, r: string)
    requires ScalarField(s, ty, target, i) && (s[ty][i].kind.Double? || s[ty][i].kind.Float?)
    requires IsIntegerText(r) && -0x20_0000_0000_0000 <= IntegerOf(r) <= 0x20_0000_0000_0000
    ensures var d := IntegerOf(r) as real;
            Gives(libc, s, ty, target, i, r, Real(if s[ty][i].kind.Float? then libc.toFloat(d) else d))
  {
    Numbers(libc, s, ty, target, i, r);
    SmallIsDouble(IntegerOf(r));
  }

  /** A number with a fraction or exponent, or beyond 64 bits, in a double or float field. */
  lemma {:induction false} RealFromReal(libc: Libc, s: Schema, ty: nat, target: Msg, i: nat, r: string)
    requires ScalarField(s, ty, target, i) && (s[ty][i].kind.Double? || s[ty][i].kind.Float?)
    requires NoInteger(r) && libc.strtod(r).1
    ensures var d := libc.strtod(r).0;
            Gives(libc, s, ty, target, i, r, Real(if s[ty][i].kind.Float? then libc.toFloat(d) else d))
  {
    Numbers(libc, s, ty, target, i, r);
  }

  /** A number that is no double either is read by a string stream. */
  lemma {:induction false} RealFromStream(libc: Libc, s: Schema, ty: nat, target: Msg, i: nat, r: string)
    requires ScalarField(s, ty, target, i) && (s[ty][i].kind.Double? || s[ty][i].kind.Float?)
    requires NoInteger(r) && !libc.strtod(r).1
    ensures Gives(libc, s, ty, target, i, r, Real(libc.lexReal(s[ty][i].kind, r)))
  {
    Numbers(libc, s, ty, target, i, r);
    NumberTextChars(r);
    CStrKeeps(r);
  }

  /** So is a string in a double or float field. */
  lemma {:induction false} RealFromString(libc: Libc, s: Schema, ty: nat, target: Msg, i: nat, str: string, c: string)
    requires ScalarField(s, ty, target, i) && (s[ty][i].kind.Double? || s[ty][i].kind.Float?)
    requires IsUtf8(str) && SeenAs(str, c)
    ensures Gives(libc, s, ty, target, i, Quoted(str), Real(libc.lexReal(s[ty][i].kind, c)))
  {
    Strings(libc, s, ty, target, i, str, c);
  }

  // ---- enums ----

  /** A string in an enum field: the number of the value it names, or the end of the program. */
  lemma {:induction false} EnumFromString(libc: Libc, s: Schema, ty: nat, target: Msg, i: nat, str: string, c: string)
    requires ScalarField(s, ty, target, i) && s[ty][i].kind.Enum? && IsUtf8(str) && SeenAs(str, c)
    ensures var values := s[ty][i].kind.values;
            && (forall j :: 0 <= j < |values| && values[j].name == c
                    ==> Gives(libc, s, ty, target, i, Quoted(str), Num(values[j].number)))
            && ((forall j :: 0 <= j < |values| ==> values[j].name != c)
                    ==> Aborts(libc, s, ty, target, i, Quoted(str)))
  {
    Strings(libc, s, ty, target, i, str, c);
    var values := s[ty][i].kind.values;
    var found := FindByName(values, c);
    forall j | 0 <= j < |values| && values[j].name == c ensures j == found {
    }
  }

  /** The field takes the number, or the program ends if the enum has no value with it. */
  predicate TakesNumber(libc: Libc, s: Schema, ty: nat, target: Msg, i: nat, r: string, n: int)
    requires ScalarField(s, ty, target, i) && s[ty][i].kind.Enum?
  {
    var values := s[ty][i].kind.values;
    if exists j :: 0 <= j < |values| && values[j].number == n then Gives(libc, s, ty, target, i, r, Num(n))
    else Aborts(libc, s, ty, target, i, r)
  }

  /**
   A number in an enum field: an integer wraps around to 32 bits; what is no integer of 63 bits
   counts as -1 or, with a minus sign, as 0.
   */
  lemma {:induction false} EnumFromNumber(libc: Libc, s: Schema, ty: nat, target: Msg, i: nat, r: string, v: int)
    requires ScalarField(s, ty, target, i) && s[ty][i].kind.Enum? && IsNumberText(r)
    requires if IsIntegerText(r) && -0x8000_0000_0000_0000 < IntegerOf(r) < 0x8000_0000_0000_0000
             then WrapsTo(Int32, IntegerOf(r), v)
             else v == if r[0] == '-' then 0 else -1
    ensures TakesNumber(libc, s, ty, target, i, r, v)
  {
    Numbers(libc, s, ty, target, i, r);
    EnumReading(libc, s[ty][i].kind.values, r, v);
  }

  lemma {:induction false} EnumCode(libc: Libc, r: string, v: int)
    requires IsNumberText(r)
    requires if IsIntegerText(r) && -0x8000_0000_0000_0000 < IntegerOf(r) < 0x8000_0000_0000_0000
             then WrapsTo(Int32, IntegerOf(r), v)
             else v == if r[0] == '-' then 0 else -1
    ensures Cast(Int32, NumberNode(libc, r).i) == v
  {
    CastWraps(Int32, NumberNode(libc, r).i, v);
  }

  lemma {:induction false} EnumReading(libc: Libc, values: seq<EnumValue>, r: string, v: int)
    requires IsNumberText(r)
    requires if IsIntegerText(r) && -0x8000_0000_0000_0000 < IntegerOf(r) < 0x8000_0000_0000_0000
             then WrapsTo(Int32, IntegerOf(r), v)
             else v == if r[0] == '-' then 0 else -1
    ensures Convert(libc, Enum(values), NumberNode(libc, r))
         == if exists j :: 0 <= j < |values| && values[j].number == v then Converted(Num(v)) else Crashed
  {
    EnumCode(libc, r, v);
    if j :| 0 <= j < |values| && values[j].number == v {
      assert FindByNumber(values, v) <= j;
    }
  }

  // ---- strings ----

  /** A string in a string field is kept up to its first NUL; a number is an error. */
  lemma {:induction false} StringFromString(libc: Libc, s: Schema, ty: nat, target: Msg, i: nat, str: string, c: string)
    requires ScalarField(s, ty, target, i) && s[ty][i].kind.String? && SeenAs(str, c)
    ensures IsUtf8(str) ==> Gives(libc, s, ty, target, i, Quoted(str), Str(c))
    ensures IsNumberText(str) ==> Fails(libc, s, ty, target, i, str)
  {
    if IsUtf8(str) {
      Strings(libc, s, ty, target, i, str, c);
    }
    if IsNumberText(str) {
      Numbers(libc, s, ty, target, i, str);
    }
  }

  // ---- the shape of the object ----

  /** A name that is no field of the message. */
  lemma {:induction false} UnknownName(libc: Libc, s: Schema, ty: nat, target: Msg, name: string, c: string, node: Json)
    requires WfSchema(s) && WellTyped(s, ty, target) && WfTree(libc, node) && Utf8Tree(node)
    requires IsUtf8(name) && SeenAs(name, c) && forall i :: 0 <= i < |s[ty]| ==> s[ty][i].name != c
    ensures Parsed(libc, s, ty, target, "{" + (Quoted(name) + ":" + Print(node, false, 0)) + "}")
         == Outcome(Mismatch, target)
  {
    var member := Member(name, node);
    CStrIs(name, c);
    PrintObjectOfOne(member);
    ParsedPrinted(libc, s, ty, target, Object([member]));
    OneMember(libc, s, ty, target, member);
  }

  /** An array for a singular field, or anything else for a repeated one. */
  lemma {:induction false} WrongShape(libc: Libc, s: Schema, ty: nat, target: Msg, i: nat, node: Json)
    requires WfSchema(s) && WellTyped(s, ty, target) && WfTree(libc, node) && Utf8Tree(node)
    requires i < |s[ty]| && node.Array? != s[ty][i].repeated
    ensures Parsed(libc, s, ty, target, "{" + ("\"" + s[ty][i].name + "\"" + ":" + Print(node, false, 0)) + "}")
         == Outcome(Mismatch, target)
  {
    var f := s[ty][i];
    var member := Member(f.name, node);
    assert WfDescriptor(|s|, s[ty]) && WfField(|s|, f);
    NameOfField(libc, s, ty, i);
    PrintObjectOfOne(member);
    ParsedPrinted(libc, s, ty, target, Object([member]));
    OneMember(libc, s, ty, target, member);
  }

  /** A text that is no object is an error, for the message and for a field of it. */
  lemma {:induction false} NoObject(libc: Libc, s: Schema, ty: nat, target: Msg, node: Json)
    requires WfSchema(s) && WellTyped(s, ty, target) && WfTree(libc, node) && Utf8Tree(node)
    ensures !node.Object? ==> Parsed(libc, s, ty, target, Print(node, false, 0)) == Outcome(Mismatch, target)
    ensures Parsed(libc, s, ty, target, "{}") == Outcome(Ok, target)
  {
    ParsedPrinted(libc, s, ty, target, node);
    ParsedPrinted(libc, s, ty, target, Object([]));
    PrintEmptyObject();
  }

  /**
   A text for a message field is parsed as a text for the sub-message there, or for a new one if
   there is none or the field is repeated. The sub-message is kept even if that fails.
   */
  lemma {:induction false} SubMessage(libc: Libc, s: Schema, ty: nat, target: Msg, i: nat, node: Json, sub: Msg)
    requires WfSchema(s) && WellTyped(s, ty, target) && WfTree(libc, node) && Utf8Tree(node) && !node.Array?
    requires i < |s[ty]| && SlotOk(s, s[ty][i], target.slots[i])
    requires var f := s[ty][i];
             && WfField(|s|, f) && f.kind.Message? && WellTyped(s, f.kind.index, sub)
             && if target.slots[i].One? then target.slots[i] == One(Sub(sub))
                else forall j :: 0 <= j < |sub.slots| ==> sub.slots[j] in [Unset, Many([])]
    ensures var f := s[ty][i];
            var value := Print(node, false, 0);
            var out := Parsed(libc, s, f.kind.index, sub, value);
            Parsed(libc, s, ty, target, PairText(f, value))
            == Outcome(out.rc, Msg(target.slots[i := if f.repeated then Many(target.slots[i].vs + [Sub(out.m)])
                                                     else One(Sub(out.m))]))
  {
    var f := s[ty][i];
    PairApplied(libc, s, ty, target, i, node);
    ParsedPrinted(libc, s, f.kind.index, sub, node);
    if !target.slots[i].One? {
      NothingSet(s, f.kind.index, sub);
    }
    if f.repeated {
      OneElement(libc, s, ty, i, target, node);
    }
  }

  lemma {:induction false} NothingSet(s: Schema, ty: nat, m: Msg)
    requires WfSchema(s) && WellTyped(s, ty, m)
    requires forall j :: 0 <= j < |m.slots| ==> m.slots[j] in [Unset, Many([])]
    ensures m == Empty(s, ty)
  {
    var e := Empty(s, ty);
    forall j | 0 <= j < |m.slots| ensures m.slots[j] == e.slots[j] {
      assert SlotOk(s, s[ty][j], m.slots[j]);
      assert m.slots[j] in [Unset, Many([])];
    }
    assert m.slots == e.slots;
  }

  // ---- around the document ----

  lemma {:induction false} CStrWhole(text: string)
    requires '\0' !in text
    ensures CStr(text) == text
  {
    CStrKeeps(text);
  }

  /** White space before and after a text changes nothing; anything else after it is an error. */
  lemma {:induction false} AroundDocument(
      libc: Libc, s: Schema, ty: nat, target: Msg, before: string, j: Json, after: string)
    requires WfSchema(s) && WellTyped(s, ty, target) && WfTree(libc, j) && Utf8Tree(j)
    requires AllSpace(before) && EndsNumber(after) && '\0' !in after
    ensures var text := Print(j, false, 0);
            Parsed(libc, s, ty, target, before + (text + after))
            == if AllSpace(after) then Parsed(libc, s, ty, target, text) else Outcome(Mismatch, target)
  {
    var text := Print(j, false, 0);
    PrintClean(libc, j, false, 0);
    assert '\0' !in before + (text + after);
    CStrWhole(before + (text + after));
    ReadPrinted(libc, j, false, 0, after);
    ReadValueSpace(libc, before, text + after);
    ParsedPrinted(libc, s, ty, target, j);
    OnlySpace(after);
  }

  lemma {:induction false} OnlySpace(w: string)
    ensures SkipSpace(w) == "" <==> AllSpace(w)
  {
    if w != "" && IsSpace(w[0]) {
      OnlySpace(w[1..]);
      assert w == [w[0]] + w[1..];
    }
  }

  // ---- decimal digits ----

  lemma {:induction false} DecStep(n: nat, text: string, d: nat, c: char)
    requires n > 0 && DecNat(n) == text && d < 10 && c as int == 48 + d
    ensures DecNat(10 * n + d) == text + [c]
  {
    assert (10 * n + d) / 10 == n && (10 * n + d) % 10 == d;
  }

  /** Integers are written in decimal digits. */
  lemma {:induction false} DecimalDigits()
    ensures DecNat(1234567890) == ['1', '2', '3', '4', '5', '6', '7', '8', '9', '0']
    ensures NatOf(['1', '2', '3', '4', '5', '6', '7', '8', '9', '0']) == 1234567890
  {
    var one: nat := 1;
    assert DecNat(one) == ['1'];
    DecStep(one, ['1'], 2, '2');
    DecStep(12, ['1', '2'], 3, '3');
    DecStep(123, ['1', '2', '3'], 4, '4');
    DecStep(1234, ['1', '2', '3', '4'], 5, '5');
    DecStep(12345, ['1', '2', '3', '4', '5'], 6, '6');
    DecStep(123456, ['1', '2', '3', '4', '5', '6'], 7, '7');
    DecStep(1234567, ['1', '2', '3', '4', '5', '6', '7'], 8, '8');
    DecStep(12345678, ['1', '2', '3', '4', '5', '6', '7', '8'], 9, '9');
    DecStep(123456789, ['1', '2', '3', '4', '5', '6', '7', '8', '9'], 0, '0');
    NatOfDecNat(1234567890);
  }

  // ---- what a number text is ----

  predicate Digits(s: string) {
    s != "" && forall i :: 0 <= i < |s| ==> '0' <= s[i] <= '9'
  }

  predicate IsInt(s: string) {
    s == "0" || (Digits(s) && s[0] != '0')
  }

  predicate IsFrac(s: string) {
    s == "" || (s[0] == '.' && Digits(s[1..]))
  }

  predicate IsExp(s: string) {
    s == "" || ((s[0] == 'e' || s[0] == 'E')
                && (Digits(s[1..]) || (|s| > 2 && (s[1] == '+' || s[1] == '-') && Digits(s[2..]))))
  }

  lemma {:induction false} SkipAllDigits(digits: string, rest: string)
    requires AllDigits(digits) && (rest == "" || !IsDigit(rest[0]))
    ensures SkipDigits(digits + rest) == rest
  {
    if digits == "" {
      assert digits + rest == rest;
    } else {
      assert (digits + rest)[1..] == digits[1..] + rest;
      SkipAllDigits(digits[1..], rest);
    }
  }

  lemma {:induction false} SkipFrac(frac: string, exp: string)
    requires IsFrac(frac) && IsExp(exp)
    ensures FractionOk(frac + exp) && SkipFraction(frac + exp) == exp && ExponentOk(exp)
  {
    if frac == "" {
      assert frac + exp == exp;
    } else {
      assert (frac + exp)[1..] == frac[1..] + exp;
      SkipAllDigits(frac[1..], exp);
      assert frac[1] == frac[1..][0];
    }
  }

  /** The number texts are those of section 2.4 of RFC 4627: a sign, an integer part, a fraction and an exponent. */
  lemma {:induction false} NumberFromParts(minus: bool, int': string, frac: string, exp: string)
    requires IsInt(int') && IsFrac(frac) && IsExp(exp)
    ensures IsNumberText((if minus then "-" else "") + (int' + (frac + exp)))
  {
    var rest := frac + exp;
    var u := int' + rest;
    var s := (if minus then "-" else "") + u;
    assert u[0] == int'[0];
    assert SkipMinus(s) == u by {
      if minus {
        assert s[1..] == u;
      } else {
        assert s == u;
      }
    }
    if int'[0] == '0' {
      assert u[1..] == rest;
    } else {
      SkipAllDigits(int', rest);
    }
    SkipFrac(frac, exp);
  }

  lemma {:induction false} NumberParts(s: string) returns (minus: bool, int': string, frac: string, exp: string)
    requires IsNumberText(s)
    ensures IsInt(int') && IsFrac(frac) && IsExp(exp)
    ensures s == (if minus then "-" else "") + (int' + (frac + exp))
  {
    minus := s[0] == '-';
    var t := SkipMinus(s);
    assert s == (if minus then "-" else "") + t;
    var u := if t[0] == '0' then t[1..] else SkipDigits(t);
    int' := IntPart(t);
    frac := FractionPart(u);
    exp := SkipFraction(u);
    ExponentPart(exp);
  }

  lemma {:induction false} IntPart(t: string) returns (int': string)
    requires t != "" && IsDigit(t[0])
    ensures IsInt(int') && t == int' + (if t[0] == '0' then t[1..] else SkipDigits(t))
  {
    if t[0] == '0' {
      int' := "0";
    } else {
      SkipDigitsSuffix(t);
      int' := t[..|t| - |SkipDigits(t)|];
    }
  }

  lemma {:induction false} ExponentPart(exp: string)
    requires ExponentOk(exp)
    ensures IsExp(exp)
  {
    if exp != "" {
      var w := if |exp| > 1 && (exp[1] == '+' || exp[1] == '-') then exp[2..] else exp[1..];
      assert Digits(w);
    }
  }

  lemma {:induction false} FractionPart(u: string) returns (frac: string)
    requires FractionOk(u)
    ensures IsFrac(frac) && u == frac + SkipFraction(u)
  {
    frac := "";
    if u != "" && u[0] == '.' {
      var rest := u[1..];
      SkipDigitsSuffix(rest);
      var digits := rest[..|rest| - |SkipDigits(rest)|];
      frac := "." + digits;
      assert frac[1..] == digits;
      assert rest == digits + SkipDigits(rest);
      assert u == "." + rest;
    }
  }

  lemma {:induction false} SignedDigits(n: int)
    ensures n >= 0 ==> Dec(n) == DecNat(n)
    ensures n < 0 ==> Dec(n) == ['-'] + DecNat(-n)
  {
  }
}
