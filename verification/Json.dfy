/** The streaming JSON writer: a buffer and a stack of comma flags, one per open scope. It is
    compared with the recursive serialization of a value tree (RFC 8259 sections 4, 5 and 7). */
module Json {
  import opened Basics
  import opened Decimal
  import opened Text

  // ----- values ------------------------------------------------------------------------------

  datatype Member = Member(key: string, value: Json)

  datatype Json =
    | Null
    | Bool(b: bool)
    | Number(n: int)
    | Str(text: string)
    | Raw(json: string)              // already serialized, copied verbatim
    | Arr(items: seq<Json>)
    | Obj(members: seq<Member>)

  function EscapeChar(c: char): string {
    if c == '"' then ['\\', '"']
    else if c == '\\' then ['\\', '\\']
    else if c == '\n' then ['\\', 'n']
    else if c == '\r' then ['\\', 'r']
    else if c == '\t' then ['\\', 't']
    else if c as int < 0x20 then ['\\', 'u', '0', '0', HexDigit(c as int / 16), HexDigit(c as int % 16)]
    else [c]
  }

  function Escape(s: string): string
    decreases |s|
  {
    if s == "" then "" else EscapeChar(s[0]) + Escape(s[1..])
  }

  function JsonString(s: string): string {
    ['"'] + Escape(s) + ['"']
  }

  function ShowInt(n: int): string {
    if n < 0 then "-" + Show(-n) else Show(n)
  }

  /** The recursive serialization. */
  function Render(v: Json): string
    decreases v, 1
  {
    match v
    case Null => "null"
    case Bool(b) => if b then "true" else "false"
    case Number(n) => ShowInt(n)
    case Str(text) => JsonString(text)
    case Raw(json) => json
    case Arr(items) => "[" + RenderItems(items) + "]"
    case Obj(members) => "{" + RenderMembers(members) + "}"
  }

  function RenderItems(items: seq<Json>): string
    decreases items, 0
  {
    if items == [] then ""
    else Render(items[0]) + (if |items| == 1 then "" else "," + RenderItems(items[1..]))
  }

  function RenderMember(m: Member): string
    decreases m, 0
  {
    JsonString(m.key) + ":" + Render(m.value)
  }

  function RenderMembers(members: seq<Member>): string
    decreases members, 0
  {
    if members == [] then ""
    else RenderMember(members[0]) + (if |members| == 1 then "" else "," + RenderMembers(members[1..]))
  }

  /** The writer has no call for a bare number, boolean or raw value inside an array. */
  predicate Writable(v: Json)
    decreases v, 1
  {
    match v
    case Arr(items) => WritableItems(items)
    case Obj(members) => WritableMembers(members)
    case _ => true
  }

  predicate WritableItems(items: seq<Json>)
    decreases items, 0
  {
    items != [] ==>
      && (items[0].Null? || items[0].Str? || items[0].Arr? || items[0].Obj?)
      && Writable(items[0]) && WritableItems(items[1..])
  }

  predicate WritableMembers(members: seq<Member>)
    decreases members, 0
  {
    members != [] ==> Writable(members[0].value) && WritableMembers(members[1..])
  }

  // ----- the writer's calls -----------------------------------------------------------------

  datatype Call =
    | BeginObject | EndObject | BeginArray | EndArray
    | Key(k: string)
    | StringAt(k: string, s: string)
    | NumberAt(k: string, n: int)
    | BoolAt(k: string, b: bool)
    | NullAt(k: string)
    | RawAt(k: string, json: string)
    | NullItem
    | StringItem(s: string)

  datatype State = State(buf: string, needsComma: seq<bool>) {
    function Marked(flag: bool): State {
      if needsComma == [] then this else this.(needsComma := needsComma[|needsComma| - 1 := flag])
    }

    function Comma(): string {
      if needsComma != [] && needsComma[|needsComma| - 1] then "," else ""
    }

    function Separated(): State { this.(buf := buf + Comma()).Marked(true) }

    function Put(text: string): State { this.(buf := buf + text) }

    function Open(bracket: string): State {
      var s := Separated().Put(bracket);
      s.(needsComma := s.needsComma + [false])
    }

    function Close(bracket: string): State {
      var s := Put(bracket);
      if s.needsComma == [] then s else s.(needsComma := s.needsComma[..|s.needsComma| - 1])
    }

    function Keyed(k: string): State { Separated().Put(JsonString(k)).Put(":").Marked(false) }

    function Perform(c: Call): State {
      match c
      case BeginObject => Open("{")
      case EndObject => Close("}")
      case BeginArray => Open("[")
      case EndArray => Close("]")
      case Key(k) => Keyed(k)
      case StringAt(k, s) => Keyed(k).Put(JsonString(s)).Marked(true)
      case NumberAt(k, n) => Keyed(k).Put(ShowInt(n)).Marked(true)
      case BoolAt(k, b) => Keyed(k).Put(if b then "true" else "false").Marked(true)
      case NullAt(k) => Keyed(k).Put("null").Marked(true)
      case RawAt(k, json) => Keyed(k).Put(json).Marked(true)
      case NullItem => Separated().Put("null")
      case StringItem(s) => Separated().Put(JsonString(s))
    }
  }

  function PerformAll(s: State, calls: seq<Call>): State
    decreases |calls|
  {
    if calls == [] then s else PerformAll(s.Perform(calls[0]), calls[1..])
  }

  /** The calls that emit a value in element position: at the top, in an array, after a key. */
  function Calls(v: Json): seq<Call>
    requires Writable(v) && (v.Null? || v.Str? || v.Arr? || v.Obj?)
    decreases v, 1
  {
    match v
    case Null => [NullItem]
    case Str(text) => [StringItem(text)]
    case Arr(items) => [BeginArray] + ItemCalls(items) + [EndArray]
    case Obj(members) => [BeginObject] + MembersCalls(members) + [EndObject]
  }

  function ItemCalls(items: seq<Json>): seq<Call>
    requires WritableItems(items)
    decreases items, 0
  {
    if items == [] then [] else Calls(items[0]) + ItemCalls(items[1..])
  }

  /** The calls that emit one member: the keyed form for a scalar, a bare key before a container. */
  function MemberCalls(m: Member): seq<Call>
    requires Writable(m.value)
    decreases m, 0
  {
    match m.value
    case Null => [NullAt(m.key)]
    case Bool(b) => [BoolAt(m.key, b)]
    case Number(n) => [NumberAt(m.key, n)]
    case Str(text) => [StringAt(m.key, text)]
    case Raw(json) => [RawAt(m.key, json)]
    case Arr(_) => [Key(m.key)] + Calls(m.value)
    case Obj(_) => [Key(m.key)] + Calls(m.value)
  }

  function MembersCalls(members: seq<Member>): seq<Call>
    requires WritableMembers(members)
    decreases members, 0
  {
    if members == [] then [] else MemberCalls(members[0]) + MembersCalls(members[1..])
  }

  lemma {:induction false} PerformAppend(s: State, xs: seq<Call>, ys: seq<Call>)
    ensures PerformAll(s, xs + ys) == PerformAll(PerformAll(s, xs), ys)
    decreases |xs|
  {
    if xs == [] {
      assert xs + ys == ys;
    } else {
      assert (xs + ys)[1..] == xs[1..] + ys;
      PerformAppend(s.Perform(xs[0]), xs[1..], ys);
    }
  }

  /** Emitting a value appends exactly its serialization, after a comma when one is due, and
      leaves the scope stack as it found it apart from the comma now due. */
  lemma {:induction false} EmitsValue(s: State, v: Json)
    requires Writable(v) && (v.Null? || v.Str? || v.Arr? || v.Obj?)
    ensures PerformAll(s, Calls(v)) == s.Separated().Put(Render(v))
    decreases v, 1
  {
    match v
    case Null => assert Calls(v)[1..] == [];
    case Str(_) => assert Calls(v)[1..] == [];
    case Arr(items) =>
      Bracketed(s, BeginArray, ItemCalls(items), EndArray);
      EmitsItems(s.Open("["), items);
      ClosesScope(s, "[", RenderItems(items), "]", items != []);
    case Obj(members) =>
      Bracketed(s, BeginObject, MembersCalls(members), EndObject);
      EmitsMembers(s.Open("{"), members);
      ClosesScope(s, "{", RenderMembers(members), "}", members != []);
  }

  lemma Bracketed(s: State, open: Call, body: seq<Call>, close: Call)
    ensures PerformAll(s, [open] + body + [close]) == PerformAll(s.Perform(open), body).Perform(close)
  {
    PerformAppend(s, [open] + body, [close]);
    PerformAppend(s, [open], body);
    assert [open][1..] == [] && [close][1..] == [];
  }

  /** Closing a scope right after its contents restores the enclosing one. */
  lemma ClosesScope(s: State, open: string, body: string, close: string, filled: bool)
    requires !filled ==> body == ""
    ensures var inner := s.Open(open);
      (if filled then inner.Put(inner.Comma() + body).Marked(true) else inner).Close(close)
      == s.Separated().Put(open + body + close)
  {
    var inner := s.Open(open);
    var full := if filled then inner.Put(inner.Comma() + body).Marked(true) else inner;
    assert full.needsComma[..|full.needsComma| - 1] == s.Separated().needsComma;
    assert full.buf + close == s.Separated().buf + (open + body + close);
  }

  /** The items of an array whose scope is open. */
  lemma {:induction false} EmitsItems(s: State, items: seq<Json>)
    requires WritableItems(items) && s.needsComma != []
    ensures PerformAll(s, ItemCalls(items)) ==
      if items == [] then s else s.Put(s.Comma() + RenderItems(items)).Marked(true)
    decreases items, 0
  {
    if items != [] {
      PerformAppend(s, Calls(items[0]), ItemCalls(items[1..]));
      EmitsValue(s, items[0]);
      EmitsItems(s.Separated().Put(Render(items[0])), items[1..]);
      Chain(s, Render(items[0]), RenderItems(items[1..]));
      assert |items| == 1 <==> items[1..] == [];
    }
  }

  /** Two consecutive emissions in one scope. */
  lemma Chain(s: State, first: string, rest: string)
    requires s.needsComma != []
    ensures var t := s.Separated().Put(first);
      && t == s.Put(s.Comma() + first).Marked(true) && t.Comma() == ","
      && t.Put("," + rest).Marked(true) == s.Put(s.Comma() + (first + ("," + rest))).Marked(true)
  {
    var t := s.Separated().Put(first);
    assert t.buf == s.buf + (s.Comma() + first);
    assert t.buf + ("," + rest) == s.buf + (s.Comma() + (first + ("," + rest)));
  }

  lemma {:induction false} EmitsMember(s: State, m: Member)
    requires Writable(m.value) && s.needsComma != []
    ensures PerformAll(s, MemberCalls(m)) == s.Separated().Put(RenderMember(m))
    decreases m, 0
  {
    var keyed := s.Keyed(m.key);
    assert keyed.Comma() == "";
    assert keyed.buf + Render(m.value) == s.Separated().buf + RenderMember(m);
    if m.value.Arr? || m.value.Obj? {
      PerformAppend(s, [Key(m.key)], Calls(m.value));
      assert PerformAll(s, [Key(m.key)]) == keyed;
      EmitsValue(keyed, m.value);
      assert keyed.buf + "" == keyed.buf;
    } else {
      assert MemberCalls(m)[1..] == [];
    }
  }

  lemma {:induction false} EmitsMembers(s: State, members: seq<Member>)
    requires WritableMembers(members) && s.needsComma != []
    ensures PerformAll(s, MembersCalls(members)) ==
      if members == [] then s else s.Put(s.Comma() + RenderMembers(members)).Marked(true)
    decreases members, 0
  {
    if members != [] {
      PerformAppend(s, MemberCalls(members[0]), MembersCalls(members[1..]));
      EmitsMember(s, members[0]);
      EmitsMembers(s.Separated().Put(RenderMember(members[0])), members[1..]);
      Chain(s, RenderMember(members[0]), RenderMembers(members[1..]));
      assert |members| == 1 <==> members[1..] == [];
    }
  }

  /** A fresh writer driven by a value's calls finishes with exactly its serialization, every
      scope closed. */
  lemma WriterEmitsDocument(v: Json)
    requires Writable(v) && (v.Arr? || v.Obj?)
    ensures PerformAll(State("", []), Calls(v)) == State(Render(v), [])
  {
    EmitsValue(State("", []), v);
    assert "" + "" + Render(v) == Render(v);
  }
}
