/** The parser: walks a tree and updates the target message field by field. */
module JsonParser {
  import opened Schema
  import opened JsonText
  import opened JsonReader
  import opened JsonMessage
  import opened JsonRoundTrip

  /** One more member after a prefix that was applied: go on, or stop with its failure. */
  lemma {:induction false} NextMember(libc: Libc, s: Schema, ty: nat, target: Msg, members: seq<Member>, i: nat, m: Msg)
    requires WfSchema(s) && WellTyped(s, ty, target) && WellTyped(s, ty, m) && i < |members|
    requires ApplyMembers(libc, s, ty, target, members[..i]) == Outcome(Ok, m)
    ensures var out := ApplyMember(libc, s, ty, m, members[i]);
            if out.rc.Ok? then ApplyMembers(libc, s, ty, target, members[..i + 1]) == out
            else ApplyMembers(libc, s, ty, target, members) == out
  {
    var out := ApplyMember(libc, s, ty, m, members[i]);
    ApplyMembersAppend(libc, s, ty, target, members[..i], [members[i]]);
    assert members[..i] + [members[i]] == members[..i + 1];
    ApplyMembersAppend(libc, s, ty, target, members[..i], members[i..]);
    assert members[..i] + members[i..] == members;
  }

  lemma {:induction false} NextElement(libc: Libc, s: Schema, ty: nat, f: nat, target: Msg, nodes: seq<Json>, i: nat, m: Msg)
    requires WfSchema(s) && WellTyped(s, ty, target) && WellTyped(s, ty, m) && i < |nodes|
    requires f < |s[ty]| && s[ty][f].repeated
    requires ApplyElements(libc, s, ty, f, target, nodes[..i]) == Outcome(Ok, m)
    ensures var out := ApplyElement(libc, s, ty, f, m, nodes[i]);
            if out.rc.Ok? then ApplyElements(libc, s, ty, f, target, nodes[..i + 1]) == out
            else ApplyElements(libc, s, ty, f, target, nodes) == out
  {
    var out := ApplyElement(libc, s, ty, f, m, nodes[i]);
    ApplyElementsAppend(libc, s, ty, f, target, nodes[..i], [nodes[i]]);
    assert nodes[..i] + [nodes[i]] == nodes[..i + 1];
    ApplyElementsAppend(libc, s, ty, f, target, nodes[..i], nodes[i..]);
    assert nodes[..i] + nodes[i..] == nodes;
  }

  /** A message object, updated field by field through its reflection interface. */
  class Message {
    var value: Msg

    constructor (value: Msg)
      ensures this.value == value
    {
      this.value := value;
    }

    /** The Set methods of a singular field. */
    method Set(f: nat, v: Value)
      requires f < |value.slots|
      modifies this
      ensures value == WithSlot(old(value), f, One(v))
    {
      value := Msg(value.slots[f := One(v)]);
    }

    /** The Add methods of a repeated field. */
    method Add(f: nat, v: Value)
      requires f < |value.slots| && value.slots[f].Many?
      modifies this
      ensures value == WithSlot(old(value), f, Many(old(value).slots[f].vs + [v]))
    {
      value := Msg(value.slots[f := Many(value.slots[f].vs + [v])]);
    }
  }

  /** The element loop of `JSON_TO_FIELD`. */
  method AddElements(libc: Libc, s: Schema, ty: nat, f: nat, message: Message, nodes: seq<Json>) returns (rc: Rc)
    requires WfSchema(s) && WellTyped(s, ty, message.value) && f < |s[ty]| && s[ty][f].repeated
    modifies message
    ensures Outcome(rc, message.value) == ApplyElements(libc, s, ty, f, old(message.value), nodes)
    ensures WellTyped(s, ty, message.value)
    decreases nodes
  {
    ghost var target := message.value;
    var field := s[ty][f];
    assert WfDescriptor(|s|, s[ty]) && WfField(|s|, field);
    for i := 0 to |nodes|
      invariant WellTyped(s, ty, message.value)
      invariant ApplyElements(libc, s, ty, f, target, nodes[..i]) == Outcome(Ok, message.value)
    {
      assert SlotOk(s, field, message.value.slots[f]);
      NextElement(libc, s, ty, f, target, nodes, i, message.value);
      if field.kind.Message? {
        var sub := new Message(Empty(s, field.kind.index));
        rc := JsonToField(libc, s, field.kind.index, sub, nodes[i]);
        message.Add(f, Sub(sub.value));
        if rc != Ok {
          return;
        }
      } else {
        var c := Convert(libc, field.kind, nodes[i]);
        match c {
          case Converted(v) => message.Add(f, v);
          case Refused => return Mismatch;
          case Crashed => return Crash;
        }
      }
    }
    assert nodes[..|nodes|] == nodes;
    return Ok;
  }

  /** `JSON_TO_FIELD` for a singular field. */
  method SetField(libc: Libc, s: Schema, ty: nat, f: nat, message: Message, node: Json) returns (rc: Rc)
    requires WfSchema(s) && WellTyped(s, ty, message.value) && f < |s[ty]| && !s[ty][f].repeated
    modifies message
    ensures Outcome(rc, message.value) == ApplySingular(libc, s, ty, f, old(message.value), node)
    decreases node, 1
  {
    var field := s[ty][f];
    assert WfDescriptor(|s|, s[ty]) && WfField(|s|, field) && SlotOk(s, field, message.value.slots[f]);
    if field.kind.Message? {
      var sub := new Message(MutableSub(s, field, message.value.slots[f]));
      rc := JsonToField(libc, s, field.kind.index, sub, node);
      message.Set(f, Sub(sub.value));
    } else {
      var c := Convert(libc, field.kind, node);
      match c {
        case Converted(v) => message.Set(f, v); rc := Ok;
        case Refused => rc := Mismatch;
        case Crashed => rc := Crash;
      }
    }
  }

  /** `ProtobufJson::jsonToField`. */
  method JsonToField(libc: Libc, s: Schema, ty: nat, message: Message, node: Json) returns (rc: Rc)
    requires WfSchema(s) && WellTyped(s, ty, message.value)
    modifies message
    ensures Outcome(rc, message.value) == ApplyObject(libc, s, ty, old(message.value), node)
    decreases node, 0
  {
    ghost var target := message.value;
    if !node.Object? {
      return Mismatch;
    }
    var members := node.members;
    for i := 0 to |members|
      invariant WellTyped(s, ty, message.value)
      invariant ApplyMembers(libc, s, ty, target, members[..i]) == Outcome(Ok, message.value)
    {
      NextMember(libc, s, ty, target, members, i, message.value);
      var value := members[i].value;
      var f := FindField(s[ty], CStr(members[i].key));
      if f == |s[ty]| {
        return Mismatch;
      }
      if value.Array? != s[ty][f].repeated {
        return Mismatch;
      }
      if s[ty][f].repeated {
        rc := AddElements(libc, s, ty, f, message, value.elements);
      } else {
        rc := SetField(libc, s, ty, f, message, value);
      }
      if rc != Ok {
        return;
      }
    }
    assert members[..|members|] == members;
    return Ok;
  }

  /** What parsing a text means: read it up to its first NUL, then apply the tree. */
  function Parsed(libc: Libc, s: Schema, ty: nat, target: Msg, text: string): Outcome
    requires WfSchema(s) && WellTyped(s, ty, target)
  {
    match ReadDocument(libc, CStr(text))
    case None => Outcome(Mismatch, target)
    case Some(root) => ApplyObject(libc, s, ty, target, root)
  }

  /** `ProtobufJson::parseJsonFromString`. */
  method ParseJsonFromString(libc: Libc, s: Schema, ty: nat, message: Message?, json: string) returns (rc: Rc)
    requires WfSchema(s) && (message != null ==> WellTyped(s, ty, message.value))
    modifies message
    ensures message == null ==> rc == Mismatch
    ensures message != null ==> Outcome(rc, message.value) == Parsed(libc, s, ty, old(message.value), json)
  {
    if message == null {
      return Mismatch;
    }
    var root := ReadDocument(libc, CStr(json));
    if root.None? {
      rc := Mismatch;
    } else {
      rc := JsonToField(libc, s, ty, message, root.value);
    }
  }
}
