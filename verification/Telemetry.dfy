/** The dependency-free JSON readers of the telemetry parsers: one string field and one object
    slice, found by key. Scanning goes over characters; the quotes, braces and backslashes that
    steer it are single bytes in UTF-8 and occur in no longer sequence. */
module Telemetry {
  import opened Basics
  import opened Decimal
  import opened Text
  import opened Json

  function Quoted(key: string): string {
    "\"" + key + "\""
  }

  /** The text of the value at the first `"key":`, if the key is there and followed by a colon. */
  function ValueText(payload: string, key: string): Option<string> {
    match Find(payload, Quoted(key))
    case None => None
    case Some(at) =>
      FindMeaning(payload, Quoted(key));
      var rest := TrimStart(payload[at + |Quoted(key)|..]);
      if rest == "" || rest[0] != ':' then None else Some(TrimStart(rest[1..]))
  }

  // ----- find_object --------------------------------------------------------------------------

  datatype Scan = Scan(depth: nat, inString: bool, escaped: bool)

  datatype Progress = Closed(length: nat) | Open(state: Scan) {
    function After(n: nat): Progress {
      if Closed? then Closed(length + n) else this
    }
  }

  function Advance(st: Scan, c: char): Scan {
    if st.inString then
      if st.escaped then st.(escaped := false)
      else if c == '\\' then st.(escaped := true)
      else if c == '"' then st.(inString := false)
      else st
    else if c == '"' then st.(inString := true)
    else if c == '{' then st.(depth := st.depth + 1)
    else if c == '}' && st.depth > 0 then st.(depth := st.depth - 1)
    else st
  }

  /** The brace scan: where the object that was opened closes, or the state it ran dry in. */
  function ScanText(st: Scan, s: string): Progress
    decreases |s|
  {
    if s == "" then Open(st)
    else if !st.inString && s[0] == '}' && st.depth == 1 then Closed(1)
    else ScanText(Advance(st, s[0]), s[1..]).After(1)
  }

  const START: Scan := Scan(0, false, false)

  /** The object slice the scan finds. */
  function ObjectIn(rest: string): Option<string> {
    if rest == "" || rest[0] != '{' then None else
    ScanBounds(START, rest);
    match ScanText(START, rest)
    case Closed(n) => Some(rest[..n])
    case Open(_) => None
  }

  lemma {:induction false} ScanBounds(st: Scan, s: string)
    ensures ScanText(st, s).Closed? ==> 1 <= ScanText(st, s).length <= |s|
    decreases |s|
  {
    if s != "" { ScanBounds(Advance(st, s[0]), s[1..]); }
  }

  method FindObject(payload: string, key: string) returns (found: Option<string>)
    ensures found == match ValueText(payload, key) case None => None case Some(rest) => ObjectIn(rest)
  {
    var value := ValueText(payload, key);
    if value.None? {
      return None;
    }
    var rest := value.value;
    if rest == "" || rest[0] != '{' {
      return None;
    }
    var depth: nat := 0;
    var inString := false;
    var escaped := false;
    var i := 0;
    while i < |rest|
      invariant 0 <= i <= |rest|
      invariant ScanText(START, rest) == ScanText(Scan(depth, inString, escaped), rest[i..]).After(i)
      invariant if i == 0 then depth == 0 && !inString else depth >= 1
      invariant escaped ==> inString
    {
      ghost var st := Scan(depth, inString, escaped);
      ScanBounds(START, rest);
      assert rest[i..][1..] == rest[i + 1..];
      var b := rest[i];
      if inString {
        if escaped {
          escaped := false;
        } else if b == '\\' {
          escaped := true;
        } else if b == '"' {
          inString := false;
        }
      } else if b == '"' {
        inString := true;
      } else if b == '{' {
        depth := depth + 1;
      } else if b == '}' {
        depth := depth - 1;
        if depth == 0 {
          return Some(rest[..i + 1]);
        }
      }
      i := i + 1;
    }
    return None;
  }

  // ----- bracketed text ---------------------------------------------------------------------

  /** JSON text as far as the scan can tell it apart: plain runs, string literals, objects. */
  datatype Cst = Plain(text: string) | Literal(body: string) | Braces(items: seq<Cst>)

  function Print(c: Cst): string
    decreases c, 1
  {
    match c
    case Plain(text) => text
    case Literal(body) => "\"" + body + "\""
    case Braces(items) => "{" + PrintAll(items) + "}"
  }

  function PrintAll(cs: seq<Cst>): string
    decreases cs, 0
  {
    if cs == [] then "" else Print(cs[0]) + PrintAll(cs[1..])
  }

  predicate Inert(c: char) {
    c != '"' && c != '{' && c != '}'
  }

  /** The body of a complete string literal: no bare quote, no dangling escape. */
  predicate LiteralBody(body: string)
    decreases |body|
  {
    body == ""
    || (body[0] != '"' && body[0] != '\\' && LiteralBody(body[1..]))
    || (body[0] == '\\' && |body| >= 2 && LiteralBody(body[2..]))
  }

  predicate WellFormed(c: Cst)
    decreases c, 1
  {
    match c
    case Plain(text) => forall i | 0 <= i < |text| :: Inert(text[i])
    case Literal(body) => LiteralBody(body)
    case Braces(items) => AllWellFormed(items)
  }

  predicate AllWellFormed(cs: seq<Cst>)
    decreases cs, 0
  {
    cs != [] ==> WellFormed(cs[0]) && AllWellFormed(cs[1..])
  }

  /** Scanning a concatenation: a close in the first part stands, otherwise the scan goes on. */
  lemma {:induction false} ScanAppend(st: Scan, a: string, b: string)
    ensures ScanText(st, a + b) == if ScanText(st, a).Closed? then ScanText(st, a)
                                   else ScanText(ScanText(st, a).state, b).After(|a|)
    decreases |a|
  {
    if a == "" {
      assert a + b == b;
    } else {
      assert (a + b)[1..] == a[1..] + b;
      ScanAppend(Advance(st, a[0]), a[1..], b);
    }
  }

  lemma {:induction false} ScanPlain(st: Scan, text: string)
    requires !st.inString && forall i | 0 <= i < |text| :: Inert(text[i])
    ensures ScanText(st, text) == Open(st)
    decreases |text|
  {
    if text != "" { ScanPlain(st, text[1..]); }
  }

  lemma {:induction false} ScanBody(st: Scan, body: string)
    requires st.inString && !st.escaped && LiteralBody(body)
    ensures ScanText(st, body) == Open(st)
    decreases |body|
  {
    if body != "" {
      if body[0] == '\\' {
        assert body[1..][1..] == body[2..];
        ScanBody(st, body[2..]);
      } else {
        ScanBody(st, body[1..]);
      }
    }
  }

  /** A complete literal leaves the scan where it was, whatever braces it holds. */
  lemma ScanLiteral(st: Scan, body: string)
    requires !st.inString && !st.escaped && LiteralBody(body)
    ensures ScanText(st, "\"" + body + "\"") == Open(st)
  {
    var inside := st.(inString := true);
    ScanAppend(st, "\"" + body, "\"");
    ScanAppend(st, "\"", body);
    assert "\""[1..] == "";
    assert ScanText(st, "\"") == Open(inside);
    ScanBody(inside, body);
    assert ScanText(inside, "\"") == Open(st);
  }

  /** Inside an open object, balanced text returns the scan to the depth it started from. */
  lemma {:induction false} ScanBalanced(st: Scan, cs: seq<Cst>)
    requires !st.inString && !st.escaped && st.depth >= 1 && AllWellFormed(cs)
    ensures ScanText(st, PrintAll(cs)) == Open(st)
    decreases cs, 0
  {
    if cs != [] {
      ScanAppend(st, Print(cs[0]), PrintAll(cs[1..]));
      ScanNode(st, cs[0]);
      ScanBalanced(st, cs[1..]);
    }
  }

  lemma {:induction false} ScanNode(st: Scan, c: Cst)
    requires !st.inString && !st.escaped && st.depth >= 1 && WellFormed(c)
    ensures ScanText(st, Print(c)) == Open(st)
    decreases c, 1
  {
    match c
    case Plain(text) => ScanPlain(st, text);
    case Literal(body) => ScanLiteral(st, body);
    case Braces(items) =>
      var deeper := st.(depth := st.depth + 1);
      ScanBalanced(deeper, items);
      ScanBraces(st, PrintAll(items));
  }

  lemma ScanBraces(st: Scan, inner: string)
    requires !st.inString && !st.escaped
    requires ScanText(st.(depth := st.depth + 1), inner) == Open(st.(depth := st.depth + 1))
    ensures ScanText(st, "{" + inner + "}") == if st.depth == 0 then Closed(|inner| + 2) else Open(st)
  {
    var deeper := st.(depth := st.depth + 1);
    ScanAppend(st, "{" + inner, "}");
    ScanAppend(st, "{", inner);
    assert "{"[1..] == "" && "}"[1..] == "";
    assert ScanText(st, "{") == Open(deeper);
    assert ScanText(deeper, "}") == if st.depth == 0 then Closed(1) else Open(st);
  }

  /** Scanning a whole object closes at its last brace, and nowhere before it. */
  lemma ScanObject(items: seq<Cst>)
    requires AllWellFormed(items)
    ensures ScanText(START, Print(Braces(items))) == Closed(|Print(Braces(items))|)
  {
    ScanBalanced(START.(depth := 1), items);
    ScanBraces(START, PrintAll(items));
  }

  /** Started on any JSON object text, whatever follows it, the scan returns exactly that text;
      started on any proper prefix of it, nothing. */
  lemma ObjectFound(items: seq<Cst>, suffix: string, n: nat)
    requires AllWellFormed(items)
    ensures ObjectIn(Print(Braces(items)) + suffix) == Some(Print(Braces(items)))
    ensures n < |Print(Braces(items))| ==> ObjectIn(Print(Braces(items))[..n]) == None
  {
    var text := Print(Braces(items));
    ScanObject(items);
    assert text[0] == '{';
    ClosesWithin(text, suffix);
    if n < |text| { OpenBefore(text, n); }
  }

  lemma ClosesWithin(text: string, suffix: string)
    requires text != "" && text[0] == '{' && ScanText(START, text) == Closed(|text|)
    ensures ObjectIn(text + suffix) == Some(text)
  {
    ScanAppend(START, text, suffix);
    assert (text + suffix)[..|text|] == text;
  }

  lemma OpenBefore(text: string, n: nat)
    requires n < |text| && ScanText(START, text) == Closed(|text|)
    ensures ObjectIn(text[..n]) == None
  {
    ScanBounds(START, text[..n]);
    ScanAppend(START, text[..n], text[n..]);
    assert text[..n] + text[n..] == text;
  }

  // ----- the writer's own output ----------------------------------------------------------------

  /** Raw members must themselves be JSON text. */
  ghost predicate RawsBalanced(v: Json)
    decreases v, 1
  {
    match v
    case Raw(json) => exists cs :: AllWellFormed(cs) && PrintAll(cs) == json
    case Arr(items) => forall i | 0 <= i < |items| :: RawsBalanced(items[i])
    case Obj(members) => forall i | 0 <= i < |members| :: RawsBalanced(members[i].value)
    case _ => true
  }

  lemma {:induction false} PrintAppend(xs: seq<Cst>, ys: seq<Cst>)
    ensures PrintAll(xs + ys) == PrintAll(xs) + PrintAll(ys)
    ensures AllWellFormed(xs) && AllWellFormed(ys) ==> AllWellFormed(xs + ys)
    decreases |xs|
  {
    if xs == [] {
      assert xs + ys == ys;
    } else {
      assert (xs + ys)[1..] == xs[1..] + ys;
      PrintAppend(xs[1..], ys);
    }
  }

  lemma {:induction false} EscapeIsBody(s: string)
    ensures LiteralBody(Escape(s))
    decreases |s|
  {
    if s != "" {
      EscapeIsBody(s[1..]);
      EscapeCharBody(s[0], Escape(s[1..]));
    }
  }

  lemma {:induction false} PlainBody(prefix: string, rest: string)
    requires forall i | 0 <= i < |prefix| :: prefix[i] != '"' && prefix[i] != '\\'
    requires LiteralBody(rest)
    ensures LiteralBody(prefix + rest)
    decreases |prefix|
  {
    if prefix == "" {
      assert prefix + rest == rest;
    } else {
      assert (prefix + rest)[1..] == prefix[1..] + rest;
      PlainBody(prefix[1..], rest);
    }
  }

  lemma EscapeCharBody(c: char, rest: string)
    requires LiteralBody(rest)
    ensures LiteralBody(EscapeChar(c) + rest)
  {
    var e := EscapeChar(c);
    if |e| == 1 {
      PlainBody(e, rest);
    } else {
      PlainBody(e[2..], rest);
      assert (e + rest)[2..] == e[2..] + rest;
    }
  }

  /** The bracket structure of a serialized value. */
  lemma {:induction false} ValueIsBalanced(v: Json) returns (cs: seq<Cst>)
    requires RawsBalanced(v)
    ensures AllWellFormed(cs) && PrintAll(cs) == Render(v)
    ensures v.Obj? ==> |cs| == 1 && cs[0].Braces?
    decreases v, 1
  {
    match v
    case Null => cs := PlainText("null");
    case Bool(b) => cs := PlainText(Render(v));
    case Number(n) => NumberIsPlain(n); cs := PlainText(Render(v));
    case Str(text) =>
      cs := [Literal(Escape(text))];
      EscapeIsBody(text);
      assert cs[1..] == [] && PrintAll(cs) == Print(cs[0]) + "";
    case Raw(json) => cs :| AllWellFormed(cs) && PrintAll(cs) == json;
    case Arr(items) =>
      var open := PlainText("[");
      var inner := ItemsAreBalanced(items);
      var close := PlainText("]");
      PrintAppend(open, inner);
      PrintAppend(open + inner, close);
      cs := open + inner + close;
    case Obj(members) =>
      var inner := MembersAreBalanced(members);
      cs := [Braces(inner)];
      assert cs[1..] == [] && PrintAll(cs) == Print(cs[0]) + "";
  }

  lemma PlainText(text: string) returns (cs: seq<Cst>)
    requires forall i | 0 <= i < |text| :: Inert(text[i])
    ensures AllWellFormed(cs) && PrintAll(cs) == text
  {
    cs := [Plain(text)];
    assert cs[1..] == [] && PrintAll(cs) == Print(cs[0]) + "";
  }

  lemma NumberIsPlain(n: int)
    ensures forall i | 0 <= i < |ShowInt(n)| :: Inert(ShowInt(n)[i])
  {
    ShowValue(if n < 0 then -n else n);
    var digits := Show(if n < 0 then -n else n);
    assert forall i | 0 <= i < |digits| :: IsDigit(digits[i]);
  }

  lemma {:induction false} ItemsAreBalanced(items: seq<Json>) returns (cs: seq<Cst>)
    requires forall i | 0 <= i < |items| :: RawsBalanced(items[i])
    ensures AllWellFormed(cs) && PrintAll(cs) == RenderItems(items)
    decreases items, 0
  {
    if items == [] {
      cs := [];
    } else {
      var head := ValueIsBalanced(items[0]);
      if |items| == 1 {
        cs := head;
      } else {
        var comma := PlainText(",");
        var rest := ItemsAreBalanced(items[1..]);
        PrintAppend(comma, rest);
        PrintAppend(head, comma + rest);
        cs := head + (comma + rest);
      }
    }
  }

  lemma {:induction false} MembersAreBalanced(members: seq<Member>) returns (cs: seq<Cst>)
    requires forall i | 0 <= i < |members| :: RawsBalanced(members[i].value)
    ensures AllWellFormed(cs) && PrintAll(cs) == RenderMembers(members)
    decreases members, 0
  {
    if members == [] {
      cs := [];
    } else {
      var head := MemberIsBalanced(members[0]);
      if |members| == 1 {
        cs := head;
      } else {
        var comma := PlainText(",");
        var rest := MembersAreBalanced(members[1..]);
        PrintAppend(comma, rest);
        PrintAppend(head, comma + rest);
        cs := head + (comma + rest);
      }
    }
  }

  lemma {:induction false} MemberIsBalanced(m: Member) returns (cs: seq<Cst>)
    requires RawsBalanced(m.value)
    ensures AllWellFormed(cs) && PrintAll(cs) == RenderMember(m)
    decreases m, 0
  {
    var key := [Literal(Escape(m.key))];
    EscapeIsBody(m.key);
    assert key[1..] == [] && PrintAll(key) == Print(key[0]) + "";
    var colon := PlainText(":");
    var value := ValueIsBalanced(m.value);
    PrintAppend(colon, value);
    PrintAppend(key, colon + value);
    cs := key + (colon + value);
    assert JsonString(m.key) + (":" + Render(m.value)) == RenderMember(m);
  }

  /** The scanner against the writer: an object the writer emitted is found whole inside any
      document, and a document cut inside it yields nothing. */
  lemma WrittenObjectFound(v: Json, suffix: string, n: nat)
    requires v.Obj? && RawsBalanced(v)
    ensures ObjectIn(Render(v) + suffix) == Some(Render(v))
    ensures n < |Render(v)| ==> ObjectIn(Render(v)[..n]) == None
  {
    var cs := ValueIsBalanced(v);
    assert cs[1..] == [];
    var node := cs[0];
    assert Print(node) + "" == Print(node);
    assert Print(node) == Render(v) && node == Braces(node.items);
    ObjectFound(node.items, suffix, n);
  }

  predicate Blank(ws: string) {
    forall i | 0 <= i < |ws| :: IsWhitespace(ws[i])
  }

  /** A document whose first `"key"` comes after `pre` and is followed, across any whitespace, by a
      colon and `rest`. */
  predicate Introduces(payload: string, pre: string, key: string, ws: string, ws': string, rest: string) {
    && Find(payload, Quoted(key)) == Some(|pre|)
    && payload == pre + Quoted(key) + (ws + (":" + (ws' + rest)))
    && Blank(ws) && Blank(ws')
  }

  lemma ValueAt(payload: string, pre: string, key: string, ws: string, ws': string, rest: string)
    requires Introduces(payload, pre, key, ws, ws', rest)
    requires rest != "" && !IsWhitespace(rest[0])
    ensures ValueText(payload, key) == Some(rest)
  {
    var after := ws' + rest;
    var tail := ":" + after;
    assert payload[|pre| + |Quoted(key)|..] == ws + tail;
    TrimStartSkips(ws, tail);
    assert tail[1..] == after;
    TrimStartSkips(ws', rest);
  }

  /** End to end: a document whose first `"key"` introduces a written object yields exactly that
      object; cut anywhere inside the object, it yields nothing. */
  lemma DocumentObjectFound(whole: string, cut: string, pre: string, key: string, ws: string, ws': string,
                            v: Json, suffix: string, n: nat)
    requires v.Obj? && RawsBalanced(v) && 0 < n < |Render(v)|
    requires Introduces(whole, pre, key, ws, ws', Render(v) + suffix)
    requires Introduces(cut, pre, key, ws, ws', Render(v)[..n])
    ensures ValueText(whole, key).Some? && ObjectIn(ValueText(whole, key).value) == Some(Render(v))
    ensures ValueText(cut, key).Some? && ObjectIn(ValueText(cut, key).value) == None
  {
    WrittenObjectFound(v, suffix, n);
    ValueAt(whole, pre, key, ws, ws', Render(v) + suffix);
    ValueAt(cut, pre, key, ws, ws', Render(v)[..n]);
  }

  // ----- find_string ---------------------------------------------------------------------------

  /** The decoder of `find_string`, from just after the opening quote. */
  function DecodeBody(s: string): Option<string>
    decreases |s|
  {
    if s == "" then None
    else if s[0] == '"' then Some("")
    else if s[0] == '\\' then
      if |s| == 1 then None
      else
        var c := if s[1] == 'n' then '\n' else if s[1] == 't' then '\t' else s[1];
        Prepend(c, DecodeBody(s[2..]))
    else Prepend(s[0], DecodeBody(s[1..]))
  }

  function Prepend(c: char, rest: Option<string>): Option<string> {
    if rest.None? then None else Some([c] + rest.value)
  }

  function StringIn(rest: string): Option<string> {
    if rest == "" || rest[0] != '"' then None else DecodeBody(rest[1..])
  }

  /** The string field of a document. */
  function FieldText(payload: string, key: string): Option<string> {
    match ValueText(payload, key)
    case None => None
    case Some(rest) => StringIn(rest)
  }

  method FindString(payload: string, key: string) returns (found: Option<string>)
    ensures found == FieldText(payload, key)
  {
    var value := ValueText(payload, key);
    if value.None? {
      return None;
    }
    if value.value == "" || value.value[0] != '"' {
      return None;
    }
    var chars := value.value[1..];
    var out := "";
    var i := 0;
    JoinedPrepend(out, ' ', DecodeBody(chars));
    assert chars[0..] == chars;
    while i < |chars|
      invariant 0 <= i <= |chars|
      invariant DecodeBody(chars) == Joined(out, DecodeBody(chars[i..]))
    {
      var c := chars[i];
      ghost var before, at := out, i;
      i := i + 1;
      assert chars[at..][1..] == chars[i..];
      if c == '\\' {
        if i == |chars| {
          return None;
        }
        assert chars[at..][2..] == chars[i + 1..];
        var other := chars[i];
        var plain := if other == 'n' then '\n' else if other == 't' then '\t' else other;
        JoinedPrepend(out, plain, DecodeBody(chars[i + 1..]));
        out := out + [plain];
        i := i + 1;
      } else if c == '"' {
        assert out + "" == out;
        return Some(out);
      } else {
        JoinedPrepend(out, c, DecodeBody(chars[i..]));
        out := out + [c];
      }
    }
    return None;
  }

  function Joined(out: string, rest: Option<string>): Option<string> {
    if rest.None? then None else Some(out + rest.value)
  }

  lemma JoinedPrepend(out: string, c: char, rest: Option<string>)
    ensures Joined(out + [c], rest) == Joined(out, Prepend(c, rest))
    ensures Joined("", rest) == rest && Joined([c], rest) == Prepend(c, rest)
  {
    if rest.Some? {
      assert out + [c] + rest.value == out + ([c] + rest.value);
      assert "" + rest.value == rest.value;
    }
  }

  /** What survives a write and a read: escapes the reader does not know lose their backslash. */
  function ReadBack(c: char): string {
    if c == '\r' then "r"
    else if c as int < 0x20 && c != '\n' && c != '\t' then EscapeChar(c)[1..]
    else [c]
  }

  function ReadBackAll(s: string): string
    decreases |s|
  {
    if s == "" then "" else ReadBack(s[0]) + ReadBackAll(s[1..])
  }

  predicate Portable(s: string) {
    forall i | 0 <= i < |s| :: s[i] as int >= 0x20 || s[i] == '\n' || s[i] == '\t'
  }

  lemma {:induction false} DecodePlain(prefix: string, rest: string)
    requires forall i | 0 <= i < |prefix| :: prefix[i] != '"' && prefix[i] != '\\'
    ensures DecodeBody(prefix + rest) == Joined(prefix, DecodeBody(rest))
    decreases |prefix|
  {
    if prefix == "" {
      assert prefix + rest == rest;
      JoinedPrepend("", ' ', DecodeBody(rest));
    } else {
      assert (prefix + rest)[1..] == prefix[1..] + rest;
      DecodePlain(prefix[1..], rest);
      if DecodeBody(rest).Some? {
        assert prefix + DecodeBody(rest).value == [prefix[0]] + (prefix[1..] + DecodeBody(rest).value);
      }
    }
  }

  lemma DecodeChar(c: char, rest: string)
    ensures DecodeBody(EscapeChar(c) + rest) == Joined(ReadBack(c), DecodeBody(rest))
  {
    var e := EscapeChar(c);
    if |e| == 1 {
      DecodePlain(e, rest);
    } else {
      assert (e + rest)[2..] == e[2..] + rest;
      DecodePlain(e[2..], rest);
      if DecodeBody(rest).Some? {
        assert [e[1]] + (e[2..] + DecodeBody(rest).value) == e[1..] + DecodeBody(rest).value;
      }
    }
  }

  lemma {:induction false} DecodeWritten(s: string, suffix: string)
    ensures StringIn(JsonString(s) + suffix) == Some(ReadBackAll(s))
    decreases |s|
  {
    assert (JsonString(s) + suffix)[1..] == Escape(s) + ("\"" + suffix);
    DecodeEscaped(s, suffix);
  }

  lemma {:induction false} DecodeEscaped(s: string, suffix: string)
    ensures DecodeBody(Escape(s) + ("\"" + suffix)) == Some(ReadBackAll(s))
    decreases |s|
  {
    if s == "" {
      assert Escape(s) + ("\"" + suffix) == "\"" + suffix;
    } else {
      var tail := Escape(s[1..]) + ("\"" + suffix);
      assert Escape(s) + ("\"" + suffix) == EscapeChar(s[0]) + tail;
      DecodeChar(s[0], tail);
      DecodeEscaped(s[1..], suffix);
    }
  }

  lemma ReadBackHead(c: char)
    ensures Portable([c]) ==> ReadBack(c) == [c]
    ensures !Portable([c]) ==> ReadBack(c) != "" && ReadBack(c)[0] != c
    ensures Portable(ReadBack(c))
  {
    assert [c][0] == c;
  }

  /** Reading back is faithful exactly on portable strings. */
  lemma {:induction false} ReadBackExact(s: string)
    ensures ReadBackAll(s) == s <==> Portable(s)
    ensures Portable(ReadBackAll(s))
    decreases |s|
  {
    if s != "" {
      ReadBackExact(s[1..]);
      ReadBackHead(s[0]);
      assert Portable(s) <==> Portable([s[0]]) && Portable(s[1..]) by {
        assert s == [s[0]] + s[1..];
        PortableParts([s[0]], s[1..]);
      }
      PortableParts(ReadBack(s[0]), ReadBackAll(s[1..]));
      if Portable([s[0]]) {
        assert ReadBackAll(s)[1..] == ReadBackAll(s[1..]);
      }
    }
  }

  lemma PortableParts(s: string, t: string)
    ensures Portable(s + t) <==> Portable(s) && Portable(t)
  {
    if Portable(s + t) {
      assert forall i | 0 <= i < |s| :: s[i] == (s + t)[i];
      assert forall i | 0 <= i < |t| :: t[i] == (s + t)[|s| + i];
    }
  }

  /** The string reader inverts the string writer, whatever follows the closing quote, if and only
      if the string's only control characters below space are newline and tab. */
  lemma StringRoundTrip(s: string, suffix: string)
    ensures StringIn(JsonString(s) + suffix) == Some(s) <==> Portable(s)
  {
    DecodeWritten(s, suffix);
    ReadBackExact(s);
  }
}
