/** Action manifests and the pure gate: applicability, `when`, `requires`, the payload rules, the
    API preconditions and the request an API operation puts on the wire. */
module Gate {
  import opened Basics
  import opened Text
  import Json
  import Answer = JsonWriter

  // ----- manifests ------------------------------------------------------------------------------

  datatype ActionKind = KeysKind | ExecKind | TextKind {
    predicate SendsKeystrokes() { !ExecKind? }
  }

  datatype ApiOp = PermissionReply | QuestionReply | QuestionReject | Interrupt {
    predicate TakesReply() { PermissionReply? }
    predicate TakesAnswers() { QuestionReply? }
    predicate AnswersRequest() { !Interrupt? }
  }

  datatype ApiReply = Once | Always | Reject {
    function Token(): string {
      match this
      case Once => "once"
      case Always => "always"
      case Reject => "reject"
    }
  }

  datatype HookVerdict = Allow | Deny

  datatype ApiTransport = ApiTransport(op: ApiOp, reply: Option<ApiReply>)
  datatype TextTransport = TextTransport(prefix: seq<string>, suffix: seq<string>, steerNow: bool)

  datatype Requirement = NeedsSession | NeedsCwd | NeedsPid | NeedsTitle

  datatype When = When(states: seq<AgentState>, details: seq<string>, pctMin: Option<nat>, pctMax: Option<nat>) {
    predicate HasContextBound() { pctMin.Some? || pctMax.Some? }
  }

  datatype Action = Action(
    name: string,
    kind: ActionKind,
    gate: Option<When>,
    agents: seq<string>,
    requirements: seq<Requirement>,
    detach: bool,
    timeoutMs: u64,
    detachTimeoutMs: u64,
    command: Option<string>,
    keys: map<string, seq<string>>,
    api: map<string, ApiTransport>,
    text: map<string, TextTransport>,
    sigils: seq<char>,
    hook: map<string, HookVerdict>)
  {
    /** What the loader enforces: one family of transports per kind, `detach` and `command` on exec
        only, no agent with two structured transports, a reply verdict exactly where one is taken. */
    predicate WellFormed() {
      && ':' !in name
      && (kind.KeysKind? ==> text == map[] && agents == [])
      && (kind.ExecKind? ==> keys == map[] && api == map[] && text == map[] && hook == map[])
      && (kind.TextKind? ==> keys == map[] && api == map[] && agents == [])
      && (detach ==> kind.ExecKind?)
      && (command.Some? <==> kind.ExecKind?)
      && (kind.KeysKind? ==> api.Keys !! keys.Keys && api.Keys !! hook.Keys)
      && (forall agent | agent in api :: api[agent].op.TakesReply() == api[agent].reply.Some?)
    }

    predicate AppliesTo(agent: string) {
      match kind
      case KeysKind => agent in keys || agent in api || agent in hook
      case ExecKind => agents == [] || agent in agents
      case TextKind => agent in text
    }
  }

  // ----- one pane read --------------------------------------------------------------------------

  datatype PaneFacts = PaneFacts(
    agent: Option<string>,
    state: AgentState,
    detail: Option<string>,
    session: Option<string>,
    cwd: string,
    pid: Option<string>,
    title: string,
    stampedAt: u64,
    contextPct: Option<nat>,
    contextCovered: bool,
    permissionRequest: Option<string>,
    questionRequest: Option<string>,
    apiEndpoint: Option<string>,
    episodeMs: u64,
    pendingTool: Option<string>,
    pendingCall: Option<string>,
    actRepeat: Option<string>)
  {
    predicate Has(need: Requirement) {
      match need
      case NeedsSession => session.Some?
      case NeedsCwd => cwd != ""
      case NeedsPid => pid.Some?
      case NeedsTitle => title != ""
    }

    predicate RequiresMet(a: Action) {
      forall i | 0 <= i < |a.requirements| :: Has(a.requirements[i])
    }
  }

  datatype Reason = WrongAgent | NoCoverage | RequiresUnmet | Gated

  function WhenGate(a: Action, f: PaneFacts, agent: string): Option<Reason> {
    if !a.AppliesTo(agent) then Some(WrongAgent)
    else if a.gate.None? then (if f.RequiresMet(a) then None else Some(RequiresUnmet))
    else
      var when := a.gate.value;
      if when.HasContextBound() && !f.contextCovered then Some(NoCoverage)
      else if !f.RequiresMet(a) then Some(RequiresUnmet)
      else if when.states != [] && f.state !in when.states then Some(Gated)
      else if when.details != [] && !(f.detail.Some? && f.detail.value in when.details) then Some(Gated)
      else if !when.HasContextBound() then None
      else if f.contextPct.None? then Some(Gated)
      else if when.pctMin.Some? && f.contextPct.value < when.pctMin.value then Some(Gated)
      else if when.pctMax.Some? && f.contextPct.value > when.pctMax.value then Some(Gated)
      else None
  }

  predicate SteerNowRefused(a: Action, f: PaneFacts, agent: string) {
    f.state == Working && agent in a.text && !a.text[agent].steerNow
  }

  /** `None` is fireable. */
  function EvaluateGate(a: Action, f: PaneFacts, agent: string): Option<Reason> {
    var outcome := WhenGate(a, f, agent);
    if outcome.None? && SteerNowRefused(a, f, agent) then Some(Gated) else outcome
  }

  // ----- the conditions, one by one ----------------------------------------------------------------

  /** Whom an action is for: an exec action for the agents it lists, or for all if it lists none; the others
      for the agents they have a transport for. */
  lemma AppliesExactly(a: Action, agent: string)
    requires a.WellFormed()
    ensures a.AppliesTo(agent)
       <==> || (a.kind.ExecKind? && (a.agents == [] || exists i | 0 <= i < |a.agents| :: a.agents[i] == agent))
            || (a.kind.KeysKind? && agent in a.keys.Keys + a.api.Keys + a.hook.Keys)
            || agent in a.text.Keys
  {
  }

  /** What an action requires is there. */
  lemma RequiresExactly(a: Action, f: PaneFacts)
    ensures f.RequiresMet(a)
       <==> && (f.session.None? ==> NeedsSession !in a.requirements)
            && (f.pid.None? ==> NeedsPid !in a.requirements)
            && (f.cwd == "" ==> NeedsCwd !in a.requirements)
            && (f.title == "" ==> NeedsTitle !in a.requirements)
  {
    forall i | 0 <= i < |a.requirements| ensures a.requirements[i] in a.requirements {
    }
  }

  // ----- what the gate promises -------------------------------------------------------------------

  /** The permanent half of the metric: a bound needs an agent whose manifest reports the metric. */
  predicate Covered(a: Action, f: PaneFacts) {
    a.gate.Some? && a.gate.value.HasContextBound() ==> f.contextCovered
  }

  /** `when`, all present conditions together, a bound on an absent metric failing closed; and a
      message is not typed into a working pane whose agent has not said it queues messages. */
  predicate Satisfied(a: Action, f: PaneFacts, agent: string) {
    && (a.gate.Some? ==>
          && (a.gate.value.states == [] || f.state in a.gate.value.states)
          && (a.gate.value.details == [] || exists d | d in a.gate.value.details :: f.detail == Some(d))
          && (a.gate.value.pctMin.Some? ==> f.contextPct.Some? && a.gate.value.pctMin.value <= f.contextPct.value)
          && (a.gate.value.pctMax.Some? ==> f.contextPct.Some? && f.contextPct.value <= a.gate.value.pctMax.value))
    && (agent in a.text && f.state == Working ==> a.text[agent].steerNow)
  }

  /** The gate opens exactly when all four conditions hold, and a refusal names the most permanent
      one that fails. */
  lemma GateExact(a: Action, f: PaneFacts, agent: string)
    ensures EvaluateGate(a, f, agent) == None
       <==> a.AppliesTo(agent) && Covered(a, f) && f.RequiresMet(a) && Satisfied(a, f, agent)
    ensures EvaluateGate(a, f, agent) == Some(WrongAgent) <==> !a.AppliesTo(agent)
    ensures EvaluateGate(a, f, agent) == Some(NoCoverage) <==> a.AppliesTo(agent) && !Covered(a, f)
    ensures EvaluateGate(a, f, agent) == Some(RequiresUnmet)
       <==> a.AppliesTo(agent) && Covered(a, f) && !f.RequiresMet(a)
  {
    if a.gate.Some? && f.detail.Some? && f.detail.value in a.gate.value.details {
      assert f.detail == Some(f.detail.value);
    }
  }

  // ----- the broker's gate ------------------------------------------------------------------------

  function Nonempty(value: Option<string>): Option<string> {
    if value == Some("") then None else value
  }

  /** The id the operation's path is built from. */
  function Target(op: ApiOp, f: PaneFacts): Option<string> {
    match op
    case PermissionReply => Nonempty(f.permissionRequest)
    case QuestionReply => Nonempty(f.questionRequest)
    case QuestionReject => Nonempty(f.questionRequest)
    case Interrupt => Nonempty(f.session)
  }

  function ApiRequiresRefusal(a: Action, f: PaneFacts, agent: string): Option<Reason> {
    if agent !in a.api then None
    else if Nonempty(f.apiEndpoint).Some? && Target(a.api[agent].op, f).Some? then None
    else Some(RequiresUnmet)
  }

  function GateRefusal(a: Action, f: PaneFacts, agent: string, force: bool): Option<Reason> {
    var base := if force then (if f.RequiresMet(a) then None else Some(RequiresUnmet)) else EvaluateGate(a, f, agent);
    if base.Some? then base else ApiRequiresRefusal(a, f, agent)
  }

  /** Forcing opens a refusing gate exactly when the refusal was `gated` or `no-coverage`, the
      requirements hold and the API preconditions hold: `requires` is never skipped. */
  lemma ForceSkipsWhenOnly(a: Action, f: PaneFacts, agent: string)
    requires a.AppliesTo(agent)
    ensures GateRefusal(a, f, agent, true).None?
       <==> f.RequiresMet(a) && ApiRequiresRefusal(a, f, agent).None?
    ensures GateRefusal(a, f, agent, false).Some? && GateRefusal(a, f, agent, true).None?
       ==> GateRefusal(a, f, agent, false).value in {Gated, NoCoverage}
    ensures GateRefusal(a, f, agent, false).None? ==> GateRefusal(a, f, agent, true).None?
  {
    GateExact(a, f, agent);
  }

  /** `no-coverage` can be forced, although the gate's own notes reserve that for `gated`. */
  lemma ForcedNoCoverageWitness(f: PaneFacts)
    requires !f.contextCovered
    ensures exists a: Action :: a.WellFormed() && a.AppliesTo("claude")
              && GateRefusal(a, f, "claude", false) == Some(NoCoverage)
              && GateRefusal(a, f, "claude", true) == None
  {
    var when := When([], [], Some(80), None);
    var a := Action("compact", ExecKind, Some(when), [], [], false, 0, 0, Some("true"), map[], map[], map[], [], map[]);
    assert a.WellFormed() && a.AppliesTo("claude");
  }

  // ----- payloads -----------------------------------------------------------------------------------

  const TEXT_MAX_BYTES := 4096

  datatype TextRefusal = Empty | TooLong | ControlBytes | Sigil

  function TrimEnd(s: string): string
    decreases |s|
  {
    if s != "" && IsWhitespace(s[|s| - 1]) then TrimEnd(s[..|s| - 1]) else s
  }

  function CheckText(sigils: seq<char>, text: string): Option<TextRefusal> {
    var trimmed := TrimStart(text);
    if TrimEnd(trimmed) == "" then Some(Empty)
    else if ByteLen(text) > TEXT_MAX_BYTES then Some(TooLong)
    else if exists i | 0 <= i < |text| :: IsControl(text[i]) then Some(ControlBytes)
    else if trimmed != "" && trimmed[0] in sigils then Some(Sigil)
    else None
  }

  /** `text[k]` is the first character that is not white space. */
  predicate Leads(text: string, k: nat) {
    && k < |text|
    && !IsWhitespace(text[k])
    && forall j | 0 <= j < k :: IsWhitespace(text[j])
  }

  lemma {:induction false} TrimmedHead(text: string) returns (k: nat)
    ensures k <= |text| && TrimStart(text) == text[k..]
    ensures forall j | 0 <= j < k :: IsWhitespace(text[j])
    ensures k < |text| ==> Leads(text, k)
    decreases |text|
  {
    k := 0;
    if text != "" && IsWhitespace(text[0]) {
      var rest := TrimmedHead(text[1..]);
      k := rest + 1;
      forall j | 0 <= j < k ensures IsWhitespace(text[j]) {
        if j > 0 { assert text[j] == text[1..][j - 1]; }
      }
    }
  }

  lemma {:induction false} TrimEndKeeps(s: string)
    requires s != "" && !IsWhitespace(s[0])
    ensures TrimEnd(s) != ""
    decreases |s|
  {
    if IsWhitespace(s[|s| - 1]) { TrimEndKeeps(s[..|s| - 1]); }
  }

  /** A message is accepted exactly when it is one line of visible text within the cap whose first
      visible character does not open one of the agent's own commands. */
  lemma PayloadExact(sigils: seq<char>, text: string)
    ensures CheckText(sigils, text) == None
       <==> && ByteLen(text) <= TEXT_MAX_BYTES
            && (forall i | 0 <= i < |text| :: !IsControl(text[i]))
            && (exists k: nat | Leads(text, k) :: text[k] !in sigils)
  {
    var k := TrimmedHead(text);
    forall j: nat | Leads(text, j) ensures j == k {
    }
    if k < |text| {
      TrimEndKeeps(TrimStart(text));
      assert TrimStart(text)[0] == text[k];
    }
  }

  /** What a refused message is blamed for: nothing visible, then its length, then a control character, then
      its first character. */
  lemma BlamedExactly(sigils: seq<char>, text: string)
    ensures CheckText(sigils, text) == Some(Empty) <==> forall i | 0 <= i < |text| :: IsWhitespace(text[i])
    ensures CheckText(sigils, text) == Some(TooLong)
       <==> CheckText(sigils, text) != Some(Empty) && ByteLen(text) > 4096
    ensures CheckText(sigils, text) == Some(ControlBytes)
       <==> && CheckText(sigils, text) != Some(Empty) && ByteLen(text) <= 4096
            && exists i | 0 <= i < |text| :: text[i] < ' ' || '\U{7f}' <= text[i] <= '\U{9f}'
  {
    var k := TrimmedHead(text);
    if k < |text| {
      TrimEndKeeps(TrimStart(text));
      assert TrimStart(text)[0] == text[k];
    }
  }

  /** The caller's part of an invocation. */
  datatype FireArgs = FireArgs(
    force: bool,
    text: Option<string>,
    answers: Option<seq<seq<string>>>,
    expectEpisode: Option<u64>,
    expectPermission: Option<string>)

  predicate NeedsAnswers(a: Action, answers: Option<seq<seq<string>>>) {
    exists agent | agent in a.api :: a.api[agent].op.TakesAnswers() && (answers.None? || answers.value == [])
  }

  function PayloadRefusal(a: Action, args: FireArgs): Option<TextRefusal> {
    var refused := if a.kind.TextKind? then CheckText(a.sigils, args.text.GetOr("")) else None;
    if refused.Some? then refused
    else if NeedsAnswers(a, args.answers) then Some(Empty)
    else None
  }

  /** A payload is refused exactly for its message, or for labels that an agent's transport takes and the
      caller has not picked. */
  lemma PayloadRefusalExactly(a: Action, args: FireArgs)
    ensures PayloadRefusal(a, args).None?
       <==> && (a.kind.TextKind? ==> CheckText(a.sigils, args.text.GetOr("")).None?)
            && ((exists agent | agent in a.api :: a.api[agent].op.QuestionReply?) ==>
                  args.answers.Some? && |args.answers.value| > 0)
    ensures a.kind.TextKind? && CheckText(a.sigils, args.text.GetOr("")).Some? ==>
      PayloadRefusal(a, args) == CheckText(a.sigils, args.text.GetOr(""))
  {
  }

  // ----- the wire -------------------------------------------------------------------------------------

  datatype Request = Request(path: string, body: string)

  function ApiRequest(t: ApiTransport, f: PaneFacts, answers: Option<seq<seq<string>>>): Option<Request> {
    var id := Target(t.op, f);
    if id.None? then None else
    match t.op
    case PermissionReply =>
      if t.reply.None? then None
      else Some(Request("/permission/" + id.value + "/reply", "{\"reply\":\"" + t.reply.value.Token() + "\"}"))
    case QuestionReply =>
      if answers.None? || answers.value == [] then None
      else Some(Request("/question/" + id.value + "/reply", Json.Render(Answer.Answers(answers.value))))
    case QuestionReject => Some(Request("/question/" + id.value + "/reject", ""))
    case Interrupt => Some(Request("/session/" + id.value + "/abort", ""))
  }

  /** Under the lock every API operation has a request: the payload rule, the API preconditions and
      the loader's reply rule leave no missing part. */
  lemma ApiRequestTotal(a: Action, f: PaneFacts, agent: string, args: FireArgs)
    requires a.WellFormed() && agent in a.api
    requires PayloadRefusal(a, args).None?
    requires GateRefusal(a, f, agent, args.force).None?
    ensures Nonempty(f.apiEndpoint).Some?
    ensures ApiRequest(a.api[agent], f, args.answers).Some?
  {
    assert ApiRequiresRefusal(a, f, agent).None?;
    assert a.api[agent].op.TakesAnswers() ==> args.answers.Some? && args.answers.value != [];
  }

  /** Each precondition is needed: without its id, its verdict or its labels an operation has no
      request, and those are the only ways to have none. */
  lemma ApiRequestExact(t: ApiTransport, f: PaneFacts, answers: Option<seq<seq<string>>>)
    ensures ApiRequest(t, f, answers).Some?
       <==> && Target(t.op, f).Some?
            && (t.op.TakesReply() ==> t.reply.Some?)
            && (t.op.TakesAnswers() ==> answers.Some? && answers.value != [])
  {
  }

  /** Requests of one operation that agree on the path address the same id. */
  lemma PathNamesTarget(t: ApiTransport, u: ApiTransport, f: PaneFacts, g: PaneFacts,
                        answers: Option<seq<seq<string>>>)
    requires ApiRequest(t, f, answers).Some? && ApiRequest(u, g, answers).Some?
    requires t.op == u.op
    requires ApiRequest(t, f, answers).value.path == ApiRequest(u, g, answers).value.path
    ensures Target(t.op, f) == Target(u.op, g)
  {
    var x, y := Target(t.op, f).value, Target(u.op, g).value;
    var l := if t.op.PermissionReply? then "/permission/" else if t.op.Interrupt? then "/session/" else "/question/";
    var r := if t.op.Interrupt? then "/abort" else if t.op.QuestionReject? then "/reject" else "/reply";
    assert l + x + r == l + y + r;
    assert (l + x + r)[|l|..|l| + |x|] == x;
    assert (l + y + r)[|l|..|l| + |y|] == y;
  }

  // ----- the caller's binder ----------------------------------------------------------------------------

  datatype BinderRefusal = EpisodeChanged | RequestGone

  function Binder(f: PaneFacts, args: FireArgs): Option<BinderRefusal> {
    if args.expectEpisode.Some? && args.expectEpisode.value != f.episodeMs then Some(EpisodeChanged)
    else if args.expectPermission.Some? && f.permissionRequest != args.expectPermission then Some(RequestGone)
    else None
  }
}
