/** What an API operation puts on the wire, as its receiver takes it apart. */
module Wire {
  import opened Basics
  import opened Text
  import opened Gate
  import opened Telemetry
  import opened Json
  import opened JsonReader
  import opened JsonWriter

  /** The field of the pane read that an operation addresses, and the two words around it in the path. */
  predicate Addresses(op: ApiOp, f: PaneFacts, noun: string, id: string, verb: string) {
    match op
    case PermissionReply => f.permissionRequest == Some(id) && noun == "permission" && verb == "reply"
    case QuestionReply => f.questionRequest == Some(id) && noun == "question" && verb == "reply"
    case QuestionReject => f.questionRequest == Some(id) && noun == "question" && verb == "reject"
    case Interrupt => f.session == Some(id) && noun == "session" && verb == "abort"
  }

  /** The path has four segments, the third of them the id of this pane, if and only if the id holds no
      slash. */
  lemma PathReads(t: ApiTransport, f: PaneFacts, answers: Option<seq<seq<string>>>)
    returns (noun: string, id: string, verb: string)
    requires ApiRequest(t, f, answers).Some?
    ensures Addresses(t.op, f, noun, id, verb) && id != ""
    ensures ApiRequest(t, f, answers).value.path == "/" + noun + "/" + id + "/" + verb
    ensures Split(ApiRequest(t, f, answers).value.path, '/') == ["", noun, id, verb] <==> '/' !in id
  {
    id := Target(t.op, f).value;
    noun := if t.op.PermissionReply? then "permission" else if t.op.Interrupt? then "session" else "question";
    verb := if t.op.Interrupt? then "abort" else if t.op.QuestionReject? then "reject" else "reply";
    PathIs(t, f, answers, noun, id, verb);
    Segments(noun, id, verb);
  }

  lemma PathIs(t: ApiTransport, f: PaneFacts, answers: Option<seq<seq<string>>>, noun: string, id: string,
               verb: string)
    requires ApiRequest(t, f, answers).Some? && Addresses(t.op, f, noun, id, verb)
    ensures ApiRequest(t, f, answers).value.path == "/" + noun + "/" + id + "/" + verb
  {
    match t.op
    case PermissionReply => assert "/permission/" == "/" + noun + "/" && "/reply" == "/" + verb;
    case QuestionReply => assert "/question/" == "/" + noun + "/" && "/reply" == "/" + verb;
    case QuestionReject => assert "/question/" == "/" + noun + "/" && "/reject" == "/" + verb;
    case Interrupt => assert "/session/" == "/" + noun + "/" && "/abort" == "/" + verb;
    Regroup("/" + noun + "/" + id, "/", verb);
  }

  lemma Segments(noun: string, id: string, verb: string)
    requires '/' !in noun && '/' !in verb
    ensures Split("/" + noun + "/" + id + "/" + verb, '/') == ["", noun, id, verb] <==> '/' !in id
  {
    var path := "/" + noun + "/" + id + "/" + verb;
    PathJoins(noun, id, verb);
    if '/' !in id {
      SplitJoin(["", noun, id, verb], '/');
    } else {
      JoinSplit(path, '/');
      assert ["", noun, id, verb][2] == id;
    }
  }

  lemma PathJoins(noun: string, id: string, verb: string)
    ensures Join(["", noun, id, verb], '/') == "/" + noun + "/" + id + "/" + verb
  {
    assert ["", noun, id, verb][1..] == [noun, id, verb];
    assert [noun, id, verb][1..] == [id, verb];
    assert [id, verb][1..] == [verb];
    assert JoinWith([verb], ['/']) == verb;
    assert JoinWith([id, verb], ['/']) == id + "/" + verb;
    assert JoinWith([noun, id, verb], ['/']) == noun + "/" + (id + "/" + verb);
  }

  /** The verdict a receiver reads off the body of a permission reply. */
  lemma ReplyReads(t: ApiTransport, f: PaneFacts, answers: Option<seq<seq<string>>>)
    requires t.op.PermissionReply? && ApiRequest(t, f, answers).Some?
    ensures FieldText(ApiRequest(t, f, answers).value.body, "reply") == Some(
        match t.reply.value
        case Once => "once"
        case Always => "always"
        case Reject => "reject")
  {
    var token := if t.reply == Some(Once) then "once" else if t.reply == Some(Always) then "always" else "reject";
    var body := "{\"reply\":\"" + token + "\"}";
    assert ApiRequest(t, f, answers).value.body == body;
    ReplyField(token);
  }

  lemma ReplyField(token: string)
    requires forall i | 0 <= i < |token| :: token[i] != '"' && token[i] != '\\'
    ensures FieldText("{\"reply\":\"" + token + "\"}", "reply") == Some(token)
  {
    var body, rest := "{\"reply\":\"" + token + "\"}", "\"" + token + "\"}";
    assert body == "{" + Quoted("reply") + ("" + (":" + ("" + rest)));
    assert body[1..] == Quoted("reply") + (":" + rest);
    assert Find(body[1..], Quoted("reply")) == Some(0);
    assert body[0] == '{' && Quoted("reply")[0] == '"';
    ValueAt(body, "{", "reply", "", "", rest);
    assert rest[1..] == token + "\"}";
    DecodePlain(token, "\"}");
    assert DecodeBody("\"}") == Some("");
    assert token + "" == token;
    assert StringIn(rest) == Some(token);
  }

  /** The two operations that only name their target send nothing more. */
  lemma BodylessReads(t: ApiTransport, f: PaneFacts, answers: Option<seq<seq<string>>>)
    requires ApiRequest(t, f, answers).Some?
    ensures ApiRequest(t, f, answers).value.body == "" <==> t.op.QuestionReject? || t.op.Interrupt?
  {
  }

  /** The labels a receiver reads off the body of a question reply: exactly those picked, question by
      question, and nothing after them. */
  lemma AnswersRead(t: ApiTransport, f: PaneFacts, answers: Option<seq<seq<string>>>)
    requires t.op.QuestionReply? && ApiRequest(t, f, answers).Some?
    ensures answers.Some?
    ensures var read := ReadValue(ApiRequest(t, f, answers).value.body);
      && read.Some? && read.value.1 == "" && read.value.0.Obj? && |read.value.0.members| == 1
      && read.value.0.members[0].key == "answers" && read.value.0.members[0].value.Arr?
      && var lists := read.value.0.members[0].value.items;
         && |lists| == |answers.value|
         && forall i | 0 <= i < |lists| ::
              && lists[i].Arr? && |lists[i].items| == |answers.value[i]|
              && forall k | 0 <= k < |lists[i].items| :: lists[i].items[k] == Str(answers.value[i][k])
  {
    var lists := AnswerItems(answers.value);
    forall i | 0 <= i < |lists| ensures Native(lists[i]) {
      LabelsNative(Labels(answers.value[i]));
    }
    ListsNative(lists);
    var members := [Member("answers", Arr(lists))];
    assert members[1..] == [];
    DocumentReads(Obj(members));
  }

  lemma {:induction false} LabelsNative(items: seq<Json>)
    requires forall i | 0 <= i < |items| :: items[i].Str?
    ensures NativeItems(items)
    decreases |items|
  {
    if items != [] { LabelsNative(items[1..]); }
  }

  lemma {:induction false} ListsNative(items: seq<Json>)
    requires forall i | 0 <= i < |items| :: Native(items[i])
    ensures NativeItems(items)
    decreases |items|
  {
    if items != [] { ListsNative(items[1..]); }
  }

  /** The API preconditions: an endpoint to talk to and an id to name. */
  lemma PreconditionsExactly(a: Action, f: PaneFacts, agent: string)
    requires agent in a.api
    ensures ApiRequiresRefusal(a, f, agent) in {None, Some(RequiresUnmet)}
    ensures ApiRequiresRefusal(a, f, agent).None?
       <==> && f.apiEndpoint.Some? && f.apiEndpoint.value != ""
            && exists noun, id, verb :: Addresses(a.api[agent].op, f, noun, id, verb) && id != ""
  {
    var op := a.api[agent].op;
    var id := Target(op, f);
    if id.Some? {
      var noun := if op.PermissionReply? then "permission" else if op.Interrupt? then "session" else "question";
      var verb := if op.Interrupt? then "abort" else if op.QuestionReject? then "reject" else "reply";
      assert Addresses(op, f, noun, id.value, verb);
    }
  }
}
