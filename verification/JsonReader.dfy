/** A reader of JSON texts without white space (RFC 8259 sections 4 to 7, integers only), and what it makes
    of the texts the writer renders: the value they were rendered from. */
module JsonReader {
  import opened Basics
  import opened Decimal
  import opened Text
  import opened Json

  // ----- the grammar ----------------------------------------------------------------------------

  /** The run of digits a text starts with. */
  function Digits(s: string): nat
    decreases |s|
  {
    if s != "" && IsDigit(s[0]) then 1 + Digits(s[1..]) else 0
  }

  lemma {:induction false} DigitsLead(s: string)
    ensures Digits(s) <= |s| && AllDigits(s[..Digits(s)])
    decreases |s|
  {
    if s != "" && IsDigit(s[0]) {
      DigitsLead(s[1..]);
      assert s[..Digits(s)] == [s[0]] + s[1..][..Digits(s[1..])];
    }
  }

  function ReadNat(s: string): Option<(nat, string)> {
    var n := Digits(s);
    DigitsLead(s);
    if n == 0 || (s[0] == '0' && n > 1) then None else Some((Value(s[..n]), s[n..]))
  }

  function ReadInt(s: string): Option<(int, string)> {
    if s != "" && s[0] == '-' then
      match ReadNat(s[1..])
      case Some((n, rest)) => var m: int := n; Some((-m, rest))
      case None => None
    else
      match ReadNat(s)
      case Some((n, rest)) => Some((n, rest))
      case None => None
  }

  function Nibble(c: char): Option<nat> {
    if '0' <= c <= '9' then Some(c as int - '0' as int)
    else if 'a' <= c <= 'f' then Some(c as int - 'a' as int + 10)
    else if 'A' <= c <= 'F' then Some(c as int - 'A' as int + 10)
    else None
  }

  /** Four hexadecimal digits that name a character. */
  function ReadHex(s: string): Option<char> {
    if |s| < 4 then None else
    match (Nibble(s[0]), Nibble(s[1]), Nibble(s[2]), Nibble(s[3]))
    case (Some(a), Some(b), Some(c), Some(d)) =>
      var n := 4096 * a + 256 * b + 16 * c + d;
      if n < 0xD800 then Some(n as char) else None
    case (_, _, _, _) => None
  }

  /** The character after a backslash, for the short escapes. */
  function Short(c: char): Option<char> {
    if c == '"' || c == '\\' || c == '/' then Some(c)
    else if c == 'n' then Some('\n')
    else if c == 'r' then Some('\r')
    else if c == 't' then Some('\t')
    else if c == 'b' then Some(8 as char)
    else if c == 'f' then Some(12 as char)
    else None
  }

  /** A string from just after its opening quote, and what follows its closing one. */
  function ReadString(s: string): Option<(string, string)>
    decreases |s|
  {
    if s == "" || s[0] as int < 0x20 then None
    else if s[0] == '"' then Some(("", s[1..]))
    else if s[0] != '\\' then Joined(s[0], ReadString(s[1..]))
    else if |s| >= 6 && s[1] == 'u' && ReadHex(s[2..]).Some? then Joined(ReadHex(s[2..]).value, ReadString(s[6..]))
    else if |s| >= 2 && Short(s[1]).Some? then Joined(Short(s[1]).value, ReadString(s[2..]))
    else None
  }

  function Joined(c: char, tail: Option<(string, string)>): Option<(string, string)> {
    match tail
    case Some((text, rest)) => Some(([c] + text, rest))
    case None => None
  }

  function ReadValue(s: string): Option<(Json, string)>
    decreases |s|, 1
  {
    if "null" <= s then Some((Null, s[4..]))
    else if "true" <= s then Some((Bool(true), s[4..]))
    else if "false" <= s then Some((Bool(false), s[5..]))
    else if "[]" <= s then Some((Arr([]), s[2..]))
    else if "{}" <= s then Some((Obj([]), s[2..]))
    else if s != "" && s[0] == '"' then
      (match ReadString(s[1..])
       case Some((text, rest)) => Some((Str(text), rest))
       case None => None)
    else if s != "" && s[0] == '[' then
      (match ReadItems(s[1..])
       case Some((items, rest)) => Some((Arr(items), rest))
       case None => None)
    else if s != "" && s[0] == '{' then
      (match ReadMembers(s[1..])
       case Some((members, rest)) => Some((Obj(members), rest))
       case None => None)
    else
      match ReadInt(s)
      case Some((n, rest)) => Some((Number(n), rest))
      case None => None
  }

  /** The items of an array up to its bracket; there is at least one. */
  function ReadItems(s: string): Option<(seq<Json>, string)>
    decreases |s|, 2
  {
    match ReadValue(s)
    case None => None
    case Some((v, r)) =>
      if r == "" || |r| >= |s| then None
      else if r[0] == ']' then Some(([v], r[1..]))
      else if r[0] != ',' then None
      else
        match ReadItems(r[1..])
        case Some((vs, rest)) => Some(([v] + vs, rest))
        case None => None
  }

  /** The members of an object up to its brace; there is at least one. */
  function ReadMembers(s: string): Option<(seq<Member>, string)>
    decreases |s|, 2
  {
    match ReadMember(s)
    case None => None
    case Some((m, r)) =>
      if r == "" || |r| >= |s| then None
      else if r[0] == '}' then Some(([m], r[1..]))
      else if r[0] != ',' then None
      else
        match ReadMembers(r[1..])
        case Some((ms, rest)) => Some(([m] + ms, rest))
        case None => None
  }

  function ReadMember(s: string): Option<(Member, string)>
    decreases |s|, 1
  {
    if s == "" || s[0] != '"' then None else
    match ReadString(s[1..])
    case None => None
    case Some((key, r)) =>
      if r == "" || r[0] != ':' || |r| >= |s| then None
      else
        match ReadValue(r[1..])
        case Some((v, rest)) => Some((Member(key, v), rest))
        case None => None
  }

  // ----- scalars ----------------------------------------------------------------------------------

  /** A text that does not go on with a digit. */
  predicate Ends(rest: string) {
    rest == "" || !IsDigit(rest[0])
  }

  lemma {:induction false} DigitsOf(digits: string, rest: string)
    requires AllDigits(digits) && Ends(rest)
    ensures Digits(digits + rest) == |digits|
    decreases |digits|
  {
    if digits == "" {
      assert digits + rest == rest;
    } else {
      assert (digits + rest)[1..] == digits[1..] + rest;
      DigitsOf(digits[1..], rest);
    }
  }

  lemma NatReads(n: nat, rest: string)
    requires Ends(rest)
    ensures ReadNat(Show(n) + rest) == Some((n, rest))
  {
    var digits := Show(n);
    ShowValue(n);
    ShowLeadingDigit(n);
    DigitsOf(digits, rest);
    assert (digits + rest)[..|digits|] == digits && (digits + rest)[|digits|..] == rest;
  }

  lemma IntReads(n: int, rest: string)
    requires Ends(rest)
    ensures ReadInt(ShowInt(n) + rest) == Some((n, rest))
    ensures ShowInt(n) != "" && (ShowInt(n)[0] == '-' || IsDigit(ShowInt(n)[0]))
  {
    var m := if n < 0 then -n else n;
    NatReads(m, rest);
    FirstDigit(m);
    if n < 0 {
      SignReads(Show(m), rest, n);
    } else {
      UnsignedReads(Show(m) + rest);
    }
  }

  lemma FirstDigit(n: nat)
    ensures Show(n) != "" && IsDigit(Show(n)[0])
  {
    ShowValue(n);
  }

  lemma SignReads(digits: string, rest: string, n: int)
    requires n < 0 && ReadNat(digits + rest) == Some((-n, rest))
    ensures ReadInt("-" + digits + rest) == Some((n, rest))
  {
    assert ("-" + digits + rest)[1..] == digits + rest;
  }

  lemma UnsignedReads(s: string)
    requires s != "" && IsDigit(s[0])
    ensures ReadInt(s) == match ReadNat(s) case Some((n, rest)) => Some((n, rest)) case None => None
  {
  }

  lemma HexReads(c: char, rest: string)
    requires c as int < 0x20
    ensures var digits := ['0', '0', HexDigit(c as int / 16), HexDigit(c as int % 16)];
      ReadHex(digits + rest) == Some(c)
  {
  }

  lemma CharReads(c: char, rest: string)
    ensures ReadString(EscapeChar(c) + rest) == Joined(c, ReadString(rest))
  {
    var e := EscapeChar(c);
    if |e| == 1 {
      assert (e + rest)[1..] == rest;
    } else if |e| == 2 {
      assert (e + rest)[2..] == rest;
    } else {
      HexReads(c, rest);
      assert (e + rest)[2..] == e[2..] + rest;
      assert e[2..] == ['0', '0', HexDigit(c as int / 16), HexDigit(c as int % 16)];
      assert (e + rest)[6..] == rest;
    }
  }

  lemma {:induction false} StringReads(text: string, rest: string)
    ensures ReadString(Escape(text) + ("\"" + rest)) == Some((text, rest))
    decreases |text|
  {
    var quoted := "\"" + rest;
    if text == "" {
      assert Escape(text) + quoted == quoted && quoted[1..] == rest;
    } else {
      StringReads(text[1..], rest);
      CharReads(text[0], Escape(text[1..]) + quoted);
      Regroup(EscapeChar(text[0]), Escape(text[1..]), quoted);
      assert [text[0]] + text[1..] == text;
    }
  }

  // ----- values -----------------------------------------------------------------------------------

  /** Nothing in the tree was serialized by someone else. */
  predicate Native(v: Json)
    decreases v, 1
  {
    match v
    case Raw(_) => false
    case Arr(items) => NativeItems(items)
    case Obj(members) => NativeMembers(members)
    case _ => true
  }

  predicate NativeItems(items: seq<Json>)
    decreases items, 0
  {
    items != [] ==> Native(items[0]) && NativeItems(items[1..])
  }

  predicate NativeMembers(members: seq<Member>)
    decreases members, 0
  {
    members != [] ==> Native(members[0].value) && NativeMembers(members[1..])
  }

  /** The character a rendering starts with tells its kind. */
  predicate Starts(v: Json, c: char) {
    match v
    case Null => c == 'n'
    case Bool(b) => c == if b then 't' else 'f'
    case Number(_) => c == '-' || IsDigit(c)
    case Str(_) => c == '"'
    case Raw(_) => false
    case Arr(_) => c == '['
    case Obj(_) => c == '{'
  }

  lemma RenderStarts(v: Json)
    requires !v.Raw?
    ensures Render(v) != "" && Starts(v, Render(v)[0])
  {
    if v.Number? { IntReads(v.n, ""); }
  }

  /** Whatever follows it, a rendered value reads back as itself. */
  lemma {:induction false} ValueReads(v: Json, rest: string)
    requires Native(v) && (v.Number? ==> Ends(rest))
    ensures ReadValue(Render(v) + rest) == Some((v, rest))
    decreases v, 1
  {
    var s := Render(v) + rest;
    RenderStarts(v);
    match v
    case Null => assert s[4..] == rest;
    case Bool(b) => BoolReads(b, rest);
    case Number(n) => IntReads(n, rest); NotALetter(s);
    case Str(text) => StrReads(text, rest);
    case Raw(_) =>
    case Arr(items) =>
      if items == [] {
        assert s == "[]" + rest && s[2..] == rest;
      } else {
        ItemsRead(items, rest);
        ItemsStart(items);
        ArrReads(items, rest);
      }
    case Obj(members) =>
      if members == [] {
        assert s == "{}" + rest && s[2..] == rest;
      } else {
        MembersRead(members, rest);
        BracesRead(RenderMembers(members), members, rest);
      }
  }

  lemma NotALetter(s: string)
    requires s != "" && (s[0] == '-' || IsDigit(s[0]))
    ensures ReadValue(s) == match ReadInt(s) case Some((n, rest)) => Some((Number(n), rest)) case None => None
  {
  }

  lemma BoolReads(b: bool, rest: string)
    ensures ReadValue(Render(Bool(b)) + rest) == Some((Bool(b), rest))
  {
    var s := Render(Bool(b)) + rest;
    if b {
      assert s[..4] == "true" && s[4..] == rest && s[0] == 't';
    } else {
      assert s[..5] == "false" && s[5..] == rest && s[0] == 'f';
    }
  }

  lemma StrReads(text: string, rest: string)
    ensures ReadValue(Render(Str(text)) + rest) == Some((Str(text), rest))
  {
    var s := Render(Str(text)) + rest;
    assert s[0] == '"';
    assert s[1..] == Escape(text) + ("\"" + rest);
    StringReads(text, rest);
  }

  lemma ItemsStart(items: seq<Json>)
    requires items != [] && NativeItems(items)
    ensures RenderItems(items) != "" && RenderItems(items)[0] != ']'
  {
    RenderStarts(items[0]);
  }

  lemma ArrReads(items: seq<Json>, rest: string)
    requires items != [] && RenderItems(items) != "" && RenderItems(items)[0] != ']'
    requires ReadItems(RenderItems(items) + ("]" + rest)) == Some((items, rest))
    ensures ReadValue(Render(Arr(items)) + rest) == Some((Arr(items), rest))
  {
    var s := Render(Arr(items)) + rest;
    assert s[0] == '[' && s[1] == RenderItems(items)[0];
    assert s[1..] == RenderItems(items) + ("]" + rest);
  }

  lemma BracesRead(body: string, members: seq<Member>, rest: string)
    requires body != "" && body[0] == '"' && ReadMembers(body + ("}" + rest)) == Some((members, rest))
    ensures ReadValue("{" + body + "}" + rest) == Some((Obj(members), rest))
  {
    var s := "{" + body + "}" + rest;
    assert s[0] == '{' && s[1] == '"';
    assert s[1..] == body + ("}" + rest);
  }

  lemma LastItem(s: string, v: Json, rest: string)
    requires ReadValue(s) == Some((v, "]" + rest)) && |s| > |rest| + 1
    ensures ReadItems(s) == Some(([v], rest))
  {
    var r := "]" + rest;
    assert r[1..] == rest && r[0] == ']' && r != "" && |r| < |s|;
  }

  lemma NextItem(s: string, v: Json, more: string, vs: seq<Json>, rest: string)
    requires ReadValue(s) == Some((v, "," + more)) && |s| > |more| + 1 && ReadItems(more) == Some((vs, rest))
    ensures ReadItems(s) == Some(([v] + vs, rest))
  {
    var r := "," + more;
    assert r[1..] == more && r[0] == ',' && r != "" && |r| < |s|;
  }

  lemma {:induction false} ItemsRead(items: seq<Json>, rest: string)
    requires items != [] && NativeItems(items)
    ensures ReadItems(RenderItems(items) + ("]" + rest)) == Some((items, rest))
    decreases items, 0
  {
    var v, s := items[0], RenderItems(items) + ("]" + rest);
    RenderStarts(v);
    if |items| == 1 {
      ValueReads(v, "]" + rest);
      assert RenderItems(items) == Render(v);
      LastItem(s, v, rest);
      assert [v] == items;
    } else {
      var more := RenderItems(items[1..]) + ("]" + rest);
      ValueReads(v, "," + more);
      ItemsRead(items[1..], rest);
      Follows(Render(v), RenderItems(items[1..]), "]" + rest);
      NextItem(s, v, more, items[1..], rest);
      assert [v] + items[1..] == items;
    }
  }

  lemma Follows(head: string, tail: string, end: string)
    ensures head + ("," + tail) + end == head + ("," + (tail + end))
  {
  }

  lemma FieldRead(s: string, key: string, value: string, v: Json, rest: string)
    requires s != "" && s[0] == '"' && ReadString(s[1..]) == Some((key, ":" + value)) && |s| > |value| + 1
    requires ReadValue(value) == Some((v, rest))
    ensures ReadMember(s) == Some((Member(key, v), rest))
  {
    assert (":" + value)[1..] == value;
  }

  lemma MemberText(m: Member, rest: string)
    ensures var s := RenderMember(m) + rest;
      s[0] == '"' && s[1..] == Escape(m.key) + ("\"" + (":" + (Render(m.value) + rest)))
  {
    var quote, value := ['"'], Render(m.value) + rest;
    assert RenderMember(m) + rest == quote + (Escape(m.key) + (quote + (":" + value)));
  }

  lemma {:induction false} MemberReads(m: Member, rest: string)
    requires Native(m.value) && (m.value.Number? ==> Ends(rest))
    ensures ReadMember(RenderMember(m) + rest) == Some((m, rest))
    decreases m, 0
  {
    var value := Render(m.value) + rest;
    ValueReads(m.value, rest);
    StringReads(m.key, ":" + value);
    MemberText(m, rest);
    FieldRead(RenderMember(m) + rest, m.key, value, m.value, rest);
  }

  lemma LastMember(s: string, m: Member, rest: string)
    requires ReadMember(s) == Some((m, "}" + rest)) && |s| > |rest| + 1
    ensures ReadMembers(s) == Some(([m], rest))
  {
    var r := "}" + rest;
    assert r[1..] == rest && r[0] == '}' && r != "" && |r| < |s|;
  }

  lemma NextMember(s: string, m: Member, more: string, ms: seq<Member>, rest: string)
    requires ReadMember(s) == Some((m, "," + more)) && |s| > |more| + 1 && ReadMembers(more) == Some((ms, rest))
    ensures ReadMembers(s) == Some(([m] + ms, rest))
  {
    var r := "," + more;
    assert r[1..] == more && r[0] == ',' && r != "" && |r| < |s|;
  }

  lemma {:induction false} MembersRead(members: seq<Member>, rest: string)
    requires members != [] && NativeMembers(members)
    ensures ReadMembers(RenderMembers(members) + ("}" + rest)) == Some((members, rest))
    ensures RenderMembers(members) != "" && RenderMembers(members)[0] == '"'
    decreases members, 0
  {
    var m, s := members[0], RenderMembers(members) + ("}" + rest);
    MemberText(m, "");
    if |members| == 1 {
      MemberReads(m, "}" + rest);
      assert RenderMembers(members) == RenderMember(m);
      LastMember(s, m, rest);
      assert [m] == members;
    } else {
      var more := RenderMembers(members[1..]) + ("}" + rest);
      MemberReads(m, "," + more);
      MembersRead(members[1..], rest);
      Follows(RenderMember(m), RenderMembers(members[1..]), "}" + rest);
      NextMember(s, m, more, members[1..], rest);
      assert [m] + members[1..] == members;
    }
  }

  /** A document the writer renders reads back as the tree it was rendered from, to its last character. */
  lemma DocumentReads(v: Json)
    requires Native(v)
    ensures ReadValue(Render(v)) == Some((v, ""))
  {
    ValueReads(v, "");
    assert Render(v) + "" == Render(v);
  }
}
