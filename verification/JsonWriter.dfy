/** The writer as the emitters use it: an object whose methods append to the buffer in place. */
module JsonWriter {
  import opened Basics
  import opened Decimal
  import opened Text
  import opened Json

  lemma EscapeStep(buf: string, s: string, i: nat)
    requires i < |s|
    ensures buf + Escape(s[i..]) == (buf + EscapeChar(s[i])) + Escape(s[i + 1..])
  {
    assert s[i..][1..] == s[i + 1..];
  }

  lemma EscapedWhole(buf: string, s: string)
    ensures s[0..] == s && s[|s|..] == ""
    ensures buf + "\"" + Escape(s) + "\"" == buf + JsonString(s)
  {
    Associate(buf, "\"", Escape(s), "\"");
  }

  class JsonWriter {
    var buf: string
    var needsComma: seq<bool>

    ghost function Current(): State
      reads this
    {
      State(buf, needsComma)
    }

    constructor ()
      ensures Current() == State("", [])
    {
      buf := "";
      needsComma := [];
    }

    method Sep()
      modifies this
      ensures Current() == old(Current()).Separated()
    {
      if needsComma != [] {
        var last := |needsComma| - 1;
        if needsComma[last] {
          buf := buf + ",";
        }
        needsComma := needsComma[last := true];
      }
    }

    method Mark(flag: bool)
      modifies this
      ensures Current() == old(Current()).Marked(flag)
    {
      if needsComma != [] {
        needsComma := needsComma[|needsComma| - 1 := flag];
      }
    }

    method WriteJsonString(s: string)
      modifies this
      ensures Current() == old(Current()).Put(JsonString(s))
    {
      buf := buf + "\"";
      ghost var whole := buf + Escape(s);
      EscapedWhole(old(buf), s);
      var i := 0;
      while i < |s|
        invariant 0 <= i <= |s|
        invariant needsComma == old(needsComma)
        invariant buf + Escape(s[i..]) == whole
      {
        EscapeStep(buf, s, i);
        var c := s[i];
        ghost var before := buf;
        if c == '"' {
          buf := buf + ['\\', '"'];
        } else if c == '\\' {
          buf := buf + ['\\', '\\'];
        } else if c == '\n' {
          buf := buf + ['\\', 'n'];
        } else if c == '\r' {
          buf := buf + ['\\', 'r'];
        } else if c == '\t' {
          buf := buf + ['\\', 't'];
        } else if c as int < 0x20 {
          buf := buf + ['\\', 'u', '0', '0', HexDigit(c as int / 16), HexDigit(c as int % 16)];
        } else {
          buf := buf + [c];
        }
        assert buf == before + EscapeChar(c);
        i := i + 1;
      }
      buf := buf + "\"";
    }

    method BeginObject()
      modifies this
      ensures Current() == old(Current()).Perform(Call.BeginObject)
    {
      Sep();
      buf := buf + "{";
      needsComma := needsComma + [false];
    }

    method EndObject()
      modifies this
      ensures Current() == old(Current()).Perform(Call.EndObject)
    {
      buf := buf + "}";
      if needsComma != [] {
        needsComma := needsComma[..|needsComma| - 1];
      }
    }

    method BeginArray()
      modifies this
      ensures Current() == old(Current()).Perform(Call.BeginArray)
    {
      Sep();
      buf := buf + "[";
      needsComma := needsComma + [false];
    }

    method EndArray()
      modifies this
      ensures Current() == old(Current()).Perform(Call.EndArray)
    {
      buf := buf + "]";
      if needsComma != [] {
        needsComma := needsComma[..|needsComma| - 1];
      }
    }

    method Key(k: string)
      modifies this
      ensures Current() == old(Current()).Perform(Call.Key(k))
    {
      Sep();
      WriteJsonString(k);
      buf := buf + ":";
      Mark(false);
    }

    method StringAt(k: string, v: string)
      modifies this
      ensures Current() == old(Current()).Perform(Call.StringAt(k, v))
    {
      Key(k);
      WriteJsonString(v);
      Mark(true);
    }

    method NumberAt(k: string, v: int)
      modifies this
      ensures Current() == old(Current()).Perform(Call.NumberAt(k, v))
    {
      Key(k);
      buf := buf + ShowInt(v);
      Mark(true);
    }

    method BoolAt(k: string, v: bool)
      modifies this
      ensures Current() == old(Current()).Perform(Call.BoolAt(k, v))
    {
      Key(k);
      buf := buf + if v then "true" else "false";
      Mark(true);
    }

    method NullAt(k: string)
      modifies this
      ensures Current() == old(Current()).Perform(Call.NullAt(k))
    {
      Key(k);
      buf := buf + "null";
      Mark(true);
    }

    method RawNull()
      modifies this
      ensures Current() == old(Current()).Perform(NullItem)
    {
      Sep();
      buf := buf + "null";
    }

    method RawValue(k: string, v: string)
      modifies this
      ensures Current() == old(Current()).Perform(RawAt(k, v))
    {
      Key(k);
      buf := buf + v;
      Mark(true);
    }

    method RawString(v: string)
      modifies this
      ensures Current() == old(Current()).Perform(StringItem(v))
    {
      Sep();
      WriteJsonString(v);
    }

    /** One call by its name. */
    method Make(c: Call)
      modifies this
      ensures Current() == old(Current()).Perform(c)
    {
      match c
      case BeginObject => BeginObject();
      case EndObject => EndObject();
      case BeginArray => BeginArray();
      case EndArray => EndArray();
      case Key(k) => Key(k);
      case StringAt(k, s) => StringAt(k, s);
      case NumberAt(k, n) => NumberAt(k, n);
      case BoolAt(k, b) => BoolAt(k, b);
      case NullAt(k) => NullAt(k);
      case RawAt(k, json) => RawValue(k, json);
      case NullItem => RawNull();
      case StringItem(s) => RawString(s);
    }

    /** Any sequence of calls, in order. */
    method MakeAll(calls: seq<Call>)
      modifies this
      ensures Current() == PerformAll(old(Current()), calls)
    {
      assert calls[0..] == calls;
      for i := 0 to |calls|
        invariant PerformAll(Current(), calls[i..]) == PerformAll(old(Current()), calls)
      {
        assert calls[i..][1..] == calls[i + 1..];
        Make(calls[i]);
      }
    }
  }

  /** Whatever document an emitter writes, a fresh writer's text is its serialization and every
      scope is closed. */
  method WriteDocument(v: Json) returns (text: string, open: seq<bool>)
    requires Writable(v) && (v.Arr? || v.Obj?)
    ensures text == Render(v) && open == []
  {
    var j := new JsonWriter();
    j.MakeAll(Calls(v));
    WriterEmitsDocument(v);
    text, open := j.buf, j.needsComma;
  }

  // ----- one emitter: the body of a question reply --------------------------------------------

  function Labels(picked: seq<string>): seq<Json> {
    seq(|picked|, i requires 0 <= i < |picked| => Str(picked[i]))
  }

  /** One list of picked labels per question. */
  function Answers(answers: seq<seq<string>>): Json {
    Obj([Member("answers", Arr(AnswerItems(answers)))])
  }

  lemma {:induction false} StringItemsWritable(items: seq<Json>)
    requires forall i | 0 <= i < |items| :: items[i].Str?
    ensures WritableItems(items)
    decreases |items|
  {
    if items != [] { StringItemsWritable(items[1..]); }
  }

  lemma {:induction false} ArrayItemsWritable(items: seq<Json>)
    requires forall i | 0 <= i < |items| :: items[i].Arr? && Writable(items[i])
    ensures WritableItems(items)
    decreases |items|
  {
    if items != [] { ArrayItemsWritable(items[1..]); }
  }

  lemma {:induction false} ItemCallsAppend(xs: seq<Json>, ys: seq<Json>)
    requires WritableItems(xs) && WritableItems(ys) && WritableItems(xs + ys)
    ensures ItemCalls(xs + ys) == ItemCalls(xs) + ItemCalls(ys)
    decreases |xs|
  {
    if xs == [] {
      assert xs + ys == ys;
    } else {
      assert (xs + ys)[1..] == xs[1..] + ys;
      ItemCallsAppend(xs[1..], ys);
    }
  }

  lemma LabelStep(start: State, picked: seq<string>, i: nat)
    requires i < |picked| && WritableItems(Labels(picked)[..i])
    ensures WritableItems(Labels(picked)[..i + 1])
    ensures PerformAll(start, ItemCalls(Labels(picked)[..i + 1]))
         == PerformAll(start, ItemCalls(Labels(picked)[..i])).Perform(StringItem(picked[i]))
  {
    var item := Str(picked[i]);
    StringItemsWritable([item]);
    StringItemsWritable(Labels(picked)[..i + 1]);
    assert Labels(picked)[..i + 1] == Labels(picked)[..i] + [item];
    ItemCallsAppend(Labels(picked)[..i], [item]);
    assert ItemCalls([item]) == [StringItem(picked[i])];
    PerformAppend(start, ItemCalls(Labels(picked)[..i]), [StringItem(picked[i])]);
    assert [StringItem(picked[i])][1..] == [];
  }

  method WriteLabels(j: JsonWriter, picked: seq<string>)
    modifies j
    ensures j.Current() == old(j.Current()).Separated().Put(Render(Arr(Labels(picked))))
  {
    ghost var start := j.Current();
    j.BeginArray();
    var i := 0;
    while i < |picked|
      invariant 0 <= i <= |picked|
      invariant WritableItems(Labels(picked)[..i])
      invariant j.Current() == PerformAll(start.Perform(BeginArray), ItemCalls(Labels(picked)[..i]))
    {
      LabelStep(start.Perform(BeginArray), picked, i);
      j.RawString(picked[i]);
      i := i + 1;
    }
    j.EndArray();
    assert Labels(picked)[..|picked|] == Labels(picked);
    Bracketed(start, BeginArray, ItemCalls(Labels(picked)), EndArray);
    EmitsValue(start, Arr(Labels(picked)));
  }

  function AnswerItems(answers: seq<seq<string>>): seq<Json> {
    seq(|answers|, i requires 0 <= i < |answers| => Arr(Labels(answers[i])))
  }

  lemma AnswerItemsWritable(answers: seq<seq<string>>, n: nat)
    requires n <= |answers|
    ensures WritableItems(AnswerItems(answers)[..n])
  {
    forall i | 0 <= i < n ensures Writable(AnswerItems(answers)[i]) {
      StringItemsWritable(Labels(answers[i]));
    }
    ArrayItemsWritable(AnswerItems(answers)[..n]);
  }

  /** The body of a question reply is the serialization of its labels, quoted verbatim. */
  method AnswersBody(answers: seq<seq<string>>) returns (body: string)
    ensures body == Render(Answers(answers))
  {
    var j := new JsonWriter();
    j.BeginObject();
    j.Key("answers");
    ghost var keyed := j.Current();
    j.BeginArray();
    var i := 0;
    while i < |answers|
      invariant 0 <= i <= |answers|
      invariant fresh(j)
      invariant WritableItems(AnswerItems(answers)[..i])
      invariant j.Current() == PerformAll(keyed.Perform(BeginArray), ItemCalls(AnswerItems(answers)[..i]))
    {
      AnswerStep(keyed.Perform(BeginArray), answers, i);
      WriteLabels(j, answers[i]);
      i := i + 1;
    }
    j.EndArray();
    j.EndObject();
    body := j.buf;
    AnswersDocument(answers, keyed);
  }

  lemma AnswerStep(start: State, answers: seq<seq<string>>, i: nat)
    requires i < |answers|
    requires WritableItems(AnswerItems(answers)[..i])
    ensures WritableItems(AnswerItems(answers)[..i + 1])
    ensures PerformAll(start, ItemCalls(AnswerItems(answers)[..i + 1]))
         == PerformAll(start, ItemCalls(AnswerItems(answers)[..i])).Separated().Put(Render(Arr(Labels(answers[i]))))
  {
    var items, item := AnswerItems(answers), Arr(Labels(answers[i]));
    AnswerItemsWritable(answers, i + 1);
    StringItemsWritable(Labels(answers[i]));
    assert items[..i + 1] == items[..i] + [item];
    assert [item][1..] == [];
    ArrayItemsWritable([item]);
    ItemCallsAppend(items[..i], [item]);
    assert ItemCalls([item]) == Calls(item);
    PerformAppend(start, ItemCalls(items[..i]), ItemCalls([item]));
    EmitsValue(PerformAll(start, ItemCalls(items[..i])), item);
  }

  lemma AnswersDocument(answers: seq<seq<string>>, keyed: State)
    requires keyed == State("", []).Perform(BeginObject).Perform(Key("answers"))
    requires WritableItems(AnswerItems(answers)[..|answers|])
    ensures PerformAll(keyed.Perform(BeginArray), ItemCalls(AnswerItems(answers)[..|answers|]))
              .Perform(EndArray).Perform(EndObject) == State(Render(Answers(answers)), [])
  {
    var items := AnswerItems(answers);
    assert items[..|answers|] == items;
    var v := Arr(items);
    var m := Member("answers", v);
    Bracketed(keyed, BeginArray, ItemCalls(items), EndArray);
    KeyedContainer(State("", []).Perform(BeginObject), m);
    Bracketed(State("", []), BeginObject, MembersCalls([m]), EndObject);
    WriterEmitsDocument(Obj([m]));
  }

  lemma KeyedContainer(s: State, m: Member)
    requires m.value.Arr? && Writable(m.value)
    ensures WritableMembers([m])
    ensures PerformAll(s, MembersCalls([m])) == PerformAll(s.Perform(Key(m.key)), Calls(m.value))
  {
    assert [m][1..] == [];
    assert MembersCalls([m]) == MemberCalls(m);
    PerformAppend(s, [Key(m.key)], Calls(m.value));
    assert [Key(m.key)][1..] == [];
  }
}
