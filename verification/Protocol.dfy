/** What one invocation of the action broker may do: its outcomes, the events of a run, and the
    properties every run keeps. The broker's methods are proved against these in `Broker`. */
module Protocol {
  import opened Basics
  import opened Text
  import opened Gate
  import Repeat

  const FRESHNESS_MS: u64 := 3000
  const SLACK_MS: u64 := 5000

  // ----- outcomes -------------------------------------------------------------------------------

  datatype Refusal =
    | GateRefused(reason: Reason)
    | Locked
    | Unbound(binder: BinderRefusal)
    | BadPayload(payload: TextRefusal)

  datatype Gone = PaneGone | RequestSpent

  datatype Outcome =
    | Sent
    | Replied
    | Exited(code: int)
    | Spawned
    | Timeout
    | Refused(refusal: Refusal)
    | Vanished(gone: Gone)
    | Error

  datatype TmuxError = PaneAbsent | CommandFailed(stderr: string) | OtherError

  function LowerChar(c: char): char {
    if 'A' <= c <= 'Z' then (c as int + 32) as char else c
  }

  function Lower(s: string): string {
    seq(|s|, i requires 0 <= i < |s| => LowerChar(s[i]))
  }

  predicate SaysPaneGone(stderr: string) {
    var s := Lower(stderr);
    || Find(s, "can't find pane").Some?
    || Find(s, "no such pane").Some?
    || Find(s, "pane not found").Some?
  }

  function IoError(e: TmuxError): Outcome {
    match e
    case PaneAbsent => Vanished(PaneGone)
    case CommandFailed(stderr) => if SaysPaneGone(stderr) then Vanished(PaneGone) else Error
    case OtherError => Error
  }

  // ----- events ---------------------------------------------------------------------------------

  datatype Lock = Lock(nonce: string, expiryMs: u64)

  datatype Effect =
    | SendKeys(keys: seq<string>)
    | SendText(prefix: seq<string>, text: string, suffix: seq<string>)
    | Post(endpoint: string, path: string, body: string, timeoutMs: u64)
    | WriteVerdict(request: string, verdict: HookVerdict)
    | RunCommand(command: string, timeoutMs: u64)
    | Supervise(nonce: string, expiryMs: u64, action: string, agent: string, command: string, timeoutMs: u64)

  datatype EffectAnswer = Delivered | TargetGone | RanTo(code: int) | RanOut | TmuxFailed(e: TmuxError) | Failed

  /** The answers each delivery can come back with. */
  predicate Possible(effect: Effect, answer: EffectAnswer) {
    match effect
    case SendKeys(_) => answer.Delivered? || answer.TmuxFailed?
    case SendText(_, _, _) => answer.Delivered? || answer.TmuxFailed?
    case Post(_, _, _, _) => answer.Delivered? || answer.TargetGone? || answer.Failed?
    case WriteVerdict(_, _) => answer.Delivered? || answer.TargetGone? || answer.Failed?
    case RunCommand(_, _) => answer.RanTo? || answer.RanOut? || answer.Failed?
    case Supervise(_, _, _, _, _, _) => answer.Delivered? || answer.Failed?
  }

  datatype ReadAnswer = Got(facts: PaneFacts) | Missing | ReadFailed(e: TmuxError)

  datatype AcquireAnswer = Won(lock: Lock) | Contended | LockFailed(e: TmuxError) | NonceFailed

  datatype Event =
    | Clock(now: u64)
    | Read(answer: ReadAnswer)
    | Reverify(failure: Option<TmuxError>)
    | Acquire(at: u64, expiryMs: u64, name: string, won: AcquireAnswer)
    | SetRepeat(value: string)
    | Probe(request: string, parked: bool)
    | Do(effect: Effect, reply: EffectAnswer)
    | SpendPermission
    | SpendQuestion
    | Clear(nonce: string)
  {
    predicate Wins() { Acquire? && won.Won? }
  }

  // ----- what the audit line records ------------------------------------------------------------

  datatype Sighting = Sighting(
    agent: Option<string>, episodeMs: u64, pendingTool: Option<string>, pendingCall: Option<string>)

  datatype Record = Record(sighting: Option<Sighting>, repeatCount: u32, tookHookLane: bool)

  function Seen(f: PaneFacts): Sighting {
    Sighting(f.agent, f.episodeMs, f.pendingTool, f.pendingCall)
  }

  /** The last pane facts a run was given. */
  function LastSeen(run: seq<Event>): Option<Sighting> {
    if run == [] then None
    else
      var e := run[|run| - 1];
      if e.Read? && e.answer.Got? then Some(Seen(e.answer.facts)) else LastSeen(run[..|run| - 1])
  }

  predicate TakesHookLane(e: Event) {
    e.Do? && e.effect.WriteVerdict? && e.reply.Delivered?
  }

  /** The record after a hold: the read under the lock, the length of the run of equal fires once an
      effect is reached, and whether the hook lane delivered it. */
  function Recorded(before: Record, a: Action, held: seq<Event>): Record {
    if held == [] || !held[0].Read? || !held[0].answer.Got? then before
    else
      var f := held[0].answer.facts;
      var seen := before.(sighting := Some(Seen(f)));
      if |held| == 1 then seen
      else Record(seen.sighting,
                  Repeat.NextRepeat(f.actRepeat, Repeat.Fire(f.episodeMs, a.name)).1,
                  before.tookHookLane || exists i | 0 <= i < |held| :: TakesHookLane(held[i]))
  }

  // ----- what a run may contain -----------------------------------------------------------------

  predicate IsStale(now: u64, stampedAt: u64) {
    stampedAt == 0 || now < stampedAt || now - stampedAt >= FRESHNESS_MS
  }

  /** The licence to act on a pane read: the agent, the gate and the API preconditions. */
  predicate Passes(a: Action, args: FireArgs, agent: string, f: PaneFacts) {
    && f.agent == Some(agent)
    && a.AppliesTo(agent)
    && GateRefusal(a, f, agent, args.force).None?
  }

  predicate Licensed(a: Action, args: FireArgs, agent: string, f: PaneFacts) {
    Passes(a, args, agent, f) && Binder(f, args).None?
  }

  /** Whether the hook lane is looked at before delivering. */
  predicate LooksAtHook(a: Action, agent: string) {
    a.kind.KeysKind? && agent !in a.api && agent in a.hook
  }

  /** The one effect an action has on an agent, given the facts read under the lock. */
  function Intended(a: Action, args: FireArgs, agent: string, f: PaneFacts, lock: Lock,
                    parked: bool): Option<Effect> {
    if a.detach then
      Some(Supervise(lock.nonce, lock.expiryMs, a.name, agent, a.command.GetOr(""), a.detachTimeoutMs))
    else match a.kind
      case ExecKind => Some(RunCommand(a.command.GetOr(""), a.timeoutMs))
      case TextKind =>
        if agent !in a.text then None
        else Some(SendText(a.text[agent].prefix, args.text.GetOr(""), a.text[agent].suffix))
      case KeysKind =>
        if agent in a.api then
          match ApiRequest(a.api[agent], f, args.answers)
          case None => None
          case Some(request) => Some(Post(f.apiEndpoint.GetOr(""), request.path, request.body, a.timeoutMs))
        else if LooksAtHook(a, agent) && parked then
          Some(WriteVerdict(f.permissionRequest.GetOr(""), a.hook[agent]))
        else
          Some(SendKeys(if agent in a.keys then a.keys[agent] else []))
  }

  /** Under the lock, and with a licence, there is always something to deliver. */
  lemma IntendedTotal(a: Action, args: FireArgs, agent: string, f: PaneFacts, lock: Lock, parked: bool)
    requires a.WellFormed() && PayloadRefusal(a, args).None? && Passes(a, args, agent, f)
    ensures Intended(a, args, agent, f, lock, parked).Some?
  {
    if agent in a.api { ApiRequestTotal(a, f, agent, args); }
  }

  /** What the caller is told about an effect that was answered. */
  function Told(a: Action, agent: string, effect: Effect, answer: EffectAnswer): Outcome {
    match answer
    case Delivered =>
      if effect.Supervise? then Spawned
      else if effect.WriteVerdict? then Replied
      else if effect.Post? && agent in a.api && a.api[agent].op.AnswersRequest() then Replied
      else Sent
    case TargetGone => Vanished(RequestSpent)
    case RanTo(code) => Exited(code)
    case RanOut => Timeout
    case TmuxFailed(e) => IoError(e)
    case Failed => Error
  }

  /** The request id a delivered answer uses up. */
  function Spent(a: Action, agent: string, effect: Effect, answer: EffectAnswer): seq<Event> {
    if !answer.Delivered? then []
    else if effect.WriteVerdict? then [SpendPermission]
    else if effect.Post? && agent in a.api then
      match a.api[agent].op
      case PermissionReply => [SpendPermission]
      case QuestionReply => [SpendQuestion]
      case QuestionReject => [SpendQuestion]
      case Interrupt => []
    else []
  }

  function Bumped(a: Action, f: PaneFacts): Event {
    SetRepeat(Repeat.NextRepeat(f.actRepeat, Repeat.Fire(f.episodeMs, a.name)).0)
  }

  /** What a pane read that brought no facts ends the run with. */
  function ReadStop(answer: ReadAnswer): Option<Outcome> {
    match answer
    case Missing => Some(Vanished(PaneGone))
    case ReadFailed(e) => Some(IoError(e))
    case Got(_) => None
  }

  function GateStop(a: Action, args: FireArgs, agent: string, f: PaneFacts): Option<Outcome> {
    match GateRefusal(a, f, agent, args.force)
    case Some(reason) => Some(Refused(GateRefused(reason)))
    case None => None
  }

  /** What the read under the lock ends the run with; nothing exactly when it licenses the effect. */
  function HoldStop(a: Action, args: FireArgs, agent: string, answer: ReadAnswer): Option<Outcome> {
    if !answer.Got? then ReadStop(answer)
    else
      var f := answer.facts;
      if f.agent != Some(agent) || !a.AppliesTo(agent) then Some(Refused(GateRefused(WrongAgent)))
      else if GateStop(a, args, agent, f).Some? then GateStop(a, args, agent, f)
      else if Binder(f, args).Some? then Some(Refused(Unbound(Binder(f, args).value)))
      else None
  }

  predicate MustRefresh(a: Action, args: FireArgs, now: u64, f: PaneFacts) {
    a.kind.SendsKeystrokes() && !args.force && IsStale(now, f.stampedAt)
  }

  /** What the calls before the lock end the run with; nothing while the run goes on. */
  function OpeningStop(a: Action, args: FireArgs, opening: seq<Event>): Option<Outcome> {
    if |opening| < 2 || !opening[0].Clock? || !opening[1].Read? then None
    else if !opening[1].answer.Got? then ReadStop(opening[1].answer)
    else
      var f := opening[1].answer.facts;
      if f.agent.None? || !a.AppliesTo(f.agent.value) then Some(Refused(GateRefused(WrongAgent)))
      else if !MustRefresh(a, args, opening[0].now, f) then GateStop(a, args, f.agent.value, f)
      else if |opening| < 3 || !opening[2].Reverify? then None
      else if opening[2].failure.Some? then Some(IoError(opening[2].failure.value))
      else if |opening| < 4 || !opening[3].Read? then None
      else if !opening[3].answer.Got? then ReadStop(opening[3].answer)
      else GateStop(a, args, f.agent.value, opening[3].answer.facts)
  }

  /** Nothing before its last call ended the run. */
  predicate GoesOn(a: Action, args: FireArgs, opening: seq<Event>) {
    forall n | 0 <= n < |opening| :: OpeningStop(a, args, opening[..n]).None?
  }

  function AcquireStop(answer: AcquireAnswer): Option<Outcome> {
    match answer
    case Won(_) => None
    case Contended => Some(Refused(Locked))
    case LockFailed(e) => Some(IoError(e))
    case NonceFailed => Some(Error)
  }

  /** What happens while the lock is held: one read, and then the outcome it demands and nothing more,
      or the run counter, the intended effect and the spending of the request it answered. */
  predicate Held(a: Action, args: FireArgs, agent: string, lock: Lock, held: seq<Event>, outcome: Outcome) {
    && held != []
    && held[0].Read?
    && (|held| == 1 ==> HoldStop(a, args, agent, held[0].answer) == Some(outcome))
    && (|held| > 1 ==>
          && held[0].answer.Got?
          && Licensed(a, args, agent, held[0].answer.facts)
          && held[1] == Bumped(a, held[0].answer.facts)
          && Delivers(a, args, agent, held[0].answer.facts, lock, held[2..], outcome))
  }

  /** The delivery itself: the hook lane is asked first where there is one. */
  predicate Delivers(a: Action, args: FireArgs, agent: string, f: PaneFacts, lock: Lock, rest: seq<Event>,
                     outcome: Outcome) {
    var at := if LooksAtHook(a, agent) then 1 else 0;
    && |rest| >= 1 + at
    && (at == 1 ==> rest[0].Probe? && rest[0].request == f.permissionRequest.GetOr(""))
    && rest[at].Do?
    && var done := rest[at];
       && Intended(a, args, agent, f, lock, at == 1 && rest[0].parked) == Some(done.effect)
       && outcome == Told(a, agent, done.effect, done.reply)
       && rest[at + 1..] == Spent(a, agent, done.effect, done.reply)
  }

  // ----- what every run keeps -------------------------------------------------------------------

  ghost predicate AtMostOneEffect(run: seq<Event>) {
    forall i, j | 0 <= i < |run| && 0 <= j < |run| && run[i].Do? && run[j].Do? :: i == j
  }

  /** Where the effect of a hold stands that began at `q`: after the read, the counter and, where there
      is a hook lane, the probe. */
  function EffectAt(a: Action, agent: string, q: nat): nat {
    if LooksAtHook(a, agent) then q + 4 else q + 3
  }

  /** The effect at `i` was performed under the lock won at `q`: the only read since, at `q + 1`, is of
      the agent first identified and licensed it; the fire was counted first; it is the effect the
      action intends for those facts, a hook verdict only after a probe that found the request parked
      and the keys of a hook action only after one that did not; the caller is told its answer; and all
      that follows is spending the answered request and clearing the lock, which a spawned supervisor
      keeps. */
  predicate Guarded(a: Action, args: FireArgs, run: seq<Event>, outcome: Outcome, q: nat, i: nat) {
    && q + 2 < i < |run|
    && run[q].Wins()
    && run[1].Read? && run[1].answer.Got?
    && run[q + 1].Read? && run[q + 1].answer.Got?
    && (forall k | q + 2 <= k < |run| :: !run[k].Read? && !run[k].Acquire?)
    && var f, lock := run[q + 1].answer.facts, run[q].won.lock;
       && f.agent.Some? && run[1].answer.facts.agent == f.agent
       && Licensed(a, args, f.agent.value, f)
       && run[q + 2] == Bumped(a, f)
       && run[i].Do? && i == EffectAt(a, f.agent.value, q)
       && (i == q + 4 ==> run[q + 3].Probe? && run[q + 3].request == f.permissionRequest.GetOr(""))
       && Intended(a, args, f.agent.value, f, lock, i == q + 4 && run[q + 3].parked) == Some(run[i].effect)
       && outcome == Told(a, f.agent.value, run[i].effect, run[i].reply)
       && run[i + 1..] == Spent(a, f.agent.value, run[i].effect, run[i].reply) + Tail(lock, outcome)
  }

  function Tail(lock: Lock, outcome: Outcome): seq<Event> {
    if outcome.Spawned? then [] else [Clear(lock.nonce)]
  }

  predicate EveryEffectGuarded(a: Action, args: FireArgs, run: seq<Event>, outcome: Outcome, q: nat) {
    forall i | 0 <= i < |run| && run[i].Do? :: Guarded(a, args, run, outcome, q, i)
  }

  /** One lock at most, won at `q`. Its nonce is cleared once, last, unless a supervisor was spawned;
      nothing else is cleared. */
  predicate Released(run: seq<Event>, outcome: Outcome, q: nat) {
    && (forall i, k | 0 <= i < k < |run| :: !(run[i].Acquire? && run[k].Acquire?))
    && (forall k | 0 <= k < |run| && run[k].Wins() :: k == q)
    && (forall i | 0 <= i < |run| && run[i].Clear? :: q < i == |run| - 1 && !outcome.Spawned?)
    && (q < |run| ==> run[q].Wins() && (outcome.Spawned? || run[|run| - 1] == Clear(run[q].won.lock.nonce)))
  }

  predicate Touches(e: Event) {
    e.Do? || e.SetRepeat? || e.SpendPermission? || e.SpendQuestion?
  }

  ghost predicate RefusalsTouchNothing(run: seq<Event>, outcome: Outcome) {
    outcome.Refused? ==> forall i | 0 <= i < |run| :: !Touches(run[i])
  }

  predicate ClaimsEffect(outcome: Outcome) {
    || outcome.Sent? || outcome.Replied? || outcome.Exited? || outcome.Timeout? || outcome.Spawned?
    || outcome == Vanished(RequestSpent)
  }

  /** Every delivery is counted, nothing else is, and an outcome that claims one had one. */
  ghost predicate CountedExactly(run: seq<Event>, outcome: Outcome) {
    && ((exists i :: 0 <= i < |run| && run[i].SetRepeat?) <==> (exists i :: 0 <= i < |run| && run[i].Do?))
    && (ClaimsEffect(outcome) ==> exists i :: 0 <= i < |run| && run[i].Do?)
  }

  function Bound(a: Action): u64 {
    if a.detach then a.detachTimeoutMs else a.timeoutMs
  }

  /** The lock is asked for only after the gate passed, with the deadline of the invocation, and a
      keystroke that is not forced never rests on a stamp that was stale and not refreshed. */
  predicate Gated(a: Action, args: FireArgs, run: seq<Event>, q: nat) {
    && (q == 2 || q == 4) && q < |run|
    && run[0].Clock? && run[1].Read? && run[1].answer.Got? && run[q - 1].Read? && run[q - 1].answer.Got?
    && run[1].answer.facts.agent.Some?
    && GateRefusal(a, run[q - 1].answer.facts, run[1].answer.facts.agent.value, args.force).None?
    && run[q].Acquire? && run[q].at == run[0].now && run[q].name == a.name
    && run[q].expiryMs == SatAdd(SatAdd(run[0].now, Bound(a)), SLACK_MS)
    && (MustRefresh(a, args, run[0].now, run[1].answer.facts) <==> q == 4)
    && (q == 4 ==> run[2] == Reverify(None))
  }

  ghost predicate AcquiresGated(a: Action, args: FireArgs, run: seq<Event>) {
    forall q | 0 <= q < |run| && run[q].Acquire? :: Gated(a, args, run, q)
  }

  ghost predicate Safe(a: Action, args: FireArgs, run: seq<Event>, outcome: Outcome, q: nat) {
    && AtMostOneEffect(run)
    && EveryEffectGuarded(a, args, run, outcome, q)
    && Released(run, outcome, q)
    && RefusalsTouchNothing(run, outcome)
    && CountedExactly(run, outcome)
    && AcquiresGated(a, args, run)
    && (run == [] <==> PayloadRefusal(a, args).Some?)
    && (run == [] <==> outcome.Refused? && outcome.refusal.BadPayload?)
    && Answered(a, args, run, outcome, q)
  }

  /** The outcome is the one the answers demand: a run that made no call reports the payload's fault, one
      that never won the lock reports what stopped it, and one that won it reports what its read under
      the lock forbade, or performed the effect. */
  ghost predicate Answered(a: Action, args: FireArgs, run: seq<Event>, outcome: Outcome, q: nat) {
    if run == [] then PayloadRefusal(a, args).Some? && outcome == Refused(BadPayload(PayloadRefusal(a, args).value))
    else if q < |run| then
      && q + 1 < |run| && run[1].Read? && run[1].answer.Got? && run[1].answer.facts.agent.Some?
      && run[q + 1].Read?
      && var stop := HoldStop(a, args, run[1].answer.facts.agent.value, run[q + 1].answer);
         if stop.Some? then stop == Some(outcome) else exists i :: 0 <= i < |run| && run[i].Do?
    else if run[|run| - 1].Acquire? then AcquireStop(run[|run| - 1].won) == Some(outcome)
    else OpeningStop(a, args, run) == Some(outcome) && GoesOn(a, args, run)
  }

  // ----- from the pieces of a run to what it keeps ------------------------------------------------

  predicate Quiet(e: Event) {
    !Touches(e) && !e.Clear? && !e.Wins()
  }

  /** A run that never won the lock. */
  lemma NeverHeld(a: Action, args: FireArgs, run: seq<Event>, outcome: Outcome)
    requires PayloadRefusal(a, args).None?
    requires run != [] && forall i | 0 <= i < |run| :: Quiet(run[i])
    requires forall i | 0 <= i < |run| && run[i].Acquire? :: i == |run| - 1 && Gated(a, args, run, i)
    requires if run[|run| - 1].Acquire? then AcquireStop(run[|run| - 1].won) == Some(outcome)
             else OpeningStop(a, args, run) == Some(outcome) && GoesOn(a, args, run)
    ensures Safe(a, args, run, outcome, |run|)
  {
  }

  /** A run that stops short claims no effect and blames no payload. */
  lemma StopsClaimNothing(a: Action, args: FireArgs, agent: string, answer: ReadAnswer, outcome: Outcome)
    requires HoldStop(a, args, agent, answer) == Some(outcome)
    ensures !ClaimsEffect(outcome) && !outcome.Spawned? && (outcome.Refused? ==> !outcome.refusal.BadPayload?)
  {
  }

  predicate UnderLock(e: Event) {
    e.SetRepeat? || e.Probe? || e.Do? || e.SpendPermission? || e.SpendQuestion?
  }

  /** The shape of a hold that acted: one effect, at `e`. */
  lemma Acted(a: Action, args: FireArgs, agent: string, lock: Lock, held: seq<Event>,
              outcome: Outcome) returns (e: nat)
    requires Held(a, args, agent, lock, held, outcome) && |held| > 1
    ensures 2 <= e == EffectAt(a, agent, 0) - 1 < |held| && held[e].Do?
    ensures forall k | 1 <= k < |held| ::
              UnderLock(held[k]) && (held[k].Do? <==> k == e) && (held[k].SetRepeat? <==> k == 1)
    ensures held[1] == Bumped(a, held[0].answer.facts)
    ensures e == 3 ==> held[2].Probe? && held[2].request == held[0].answer.facts.permissionRequest.GetOr("")
    ensures Intended(a, args, agent, held[0].answer.facts, lock, e == 3 && held[2].parked) == Some(held[e].effect)
    ensures outcome == Told(a, agent, held[e].effect, held[e].reply)
    ensures held[e + 1..] == Spent(a, agent, held[e].effect, held[e].reply)
  {
    var at := if LooksAtHook(a, agent) then 1 else 0;
    e := 2 + at;
    var rest := held[2..];
    assert rest[at] == held[e] && rest[at + 1..] == held[e + 1..];
    forall k | 1 <= k < |held|
      ensures UnderLock(held[k]) && (held[k].Do? <==> k == e) && (held[k].SetRepeat? <==> k == 1)
    {
      if k > e { assert held[k] == held[e + 1..][k - e - 1]; }
    }
  }

  /** The pieces of a run that won the lock, position by position. */
  predicate Laid(opening: seq<Event>, acquire: Event, held: seq<Event>, run: seq<Event>, outcome: Outcome) {
    var q := |opening|;
    && acquire.Wins() && held != []
    && |run| == q + 1 + |held| + (if outcome.Spawned? then 0 else 1)
    && (forall k | 0 <= k < q :: run[k] == opening[k] && Preliminary(opening[k]))
    && run[q] == acquire
    && (forall k | q < k <= q + |held| :: run[k] == held[k - q - 1])
    && (!outcome.Spawned? ==> run[|run| - 1] == Clear(acquire.won.lock.nonce))
  }

  predicate Preliminary(e: Event) {
    e.Clock? || e.Read? || e.Reverify?
  }

  lemma Layout(opening: seq<Event>, acquire: Event, held: seq<Event>, run: seq<Event>, outcome: Outcome)
    requires acquire.Wins() && held != [] && forall k | 0 <= k < |opening| :: Preliminary(opening[k])
    requires run == opening + [acquire] + held + Tail(acquire.won.lock, outcome)
    ensures Laid(opening, acquire, held, run, outcome)
  {
  }

  /** A hold that stopped at its read. */
  lemma HeldIdle(a: Action, args: FireArgs, agent: string, opening: seq<Event>, acquire: Event, held: seq<Event>,
                 run: seq<Event>, outcome: Outcome)
    requires PayloadRefusal(a, args).None?
    requires Laid(opening, acquire, held, run, outcome) && |held| == 1
    requires Held(a, args, agent, acquire.won.lock, held, outcome)
    requires Identifies(opening, agent) && Gated(a, args, run, |opening|)
    ensures Safe(a, args, run, outcome, |opening|)
  {
    var q := |opening|;
    StopsClaimNothing(a, args, agent, held[0].answer, outcome);
    forall k | 0 <= k < |run|
      ensures !Touches(run[k]) && (run[k].Acquire? <==> k == q) && (run[k].Clear? <==> k == q + 2)
    {
    }
  }

  /** The agent a run was opened for. */
  predicate Identifies(opening: seq<Event>, agent: string) {
    |opening| >= 2 && opening[1].Read? && opening[1].answer.Got? && opening[1].answer.facts.agent == Some(agent)
  }

  lemma HeldActed(a: Action, args: FireArgs, agent: string, opening: seq<Event>, acquire: Event,
                  held: seq<Event>, run: seq<Event>, outcome: Outcome)
    returns (i: nat)
    requires Laid(opening, acquire, held, run, outcome) && |held| > 1 && Identifies(opening, agent)
    requires Held(a, args, agent, acquire.won.lock, held, outcome)
    ensures Released(run, outcome, |opening|) && AtMostOneEffect(run) && CountedExactly(run, outcome)
    ensures !outcome.Refused? && i < |run|
    ensures forall k | 0 <= k < |run| :: run[k].Acquire? <==> k == |opening|
    ensures forall k | 0 <= k < |run| :: run[k].Do? <==> k == i
    ensures Guarded(a, args, run, outcome, |opening|, i)
  {
    var q := |opening|;
    var e := Acted(a, args, agent, acquire.won.lock, held, outcome);
    i := q + 1 + e;
    forall k | 0 <= k < |run|
      ensures run[k].Acquire? <==> k == q
      ensures run[k].Do? <==> k == i
      ensures run[k].SetRepeat? <==> k == q + 2
      ensures run[k].Clear? <==> k == q + 1 + |held|
      ensures k >= q + 2 ==> !run[k].Read?
    {
    }
    var lock := acquire.won.lock;
    assert run[i + 1..] == held[e + 1..] + Tail(lock, outcome);
    assert run[q + 2].SetRepeat? && run[i].Do?;
    assert 0 <= q < |run| - 1 && run[q].Wins();
  }

  /** Everything a run keeps, from its pieces. */
  lemma HeldSafe(a: Action, args: FireArgs, agent: string, opening: seq<Event>, acquire: Event,
                 held: seq<Event>, run: seq<Event>, outcome: Outcome)
    requires PayloadRefusal(a, args).None?
    requires acquire.Wins() && forall k | 0 <= k < |opening| :: Preliminary(opening[k])
    requires Held(a, args, agent, acquire.won.lock, held, outcome)
    requires run == opening + [acquire] + held + Tail(acquire.won.lock, outcome)
    requires Identifies(opening, agent) && Gated(a, args, run, |opening|)
    ensures Safe(a, args, run, outcome, |opening|)
    ensures (exists i | 0 <= i < |run| :: run[i].Do?) <==> |held| > 1
  {
    Layout(opening, acquire, held, run, outcome);
    if |held| == 1 {
      HeldIdle(a, args, agent, opening, acquire, held, run, outcome);
    } else {
      var i := HeldActed(a, args, agent, opening, acquire, held, run, outcome);
      assert run[i].Do?;
      assert EveryEffectGuarded(a, args, run, outcome, |opening|);
    }
  }

  // ----- the sequence ---------------------------------------------------------------------------

  /** The gate has been passed on the last read of `opening`, freshly enough. */
  predicate Opened(a: Action, args: FireArgs, opening: seq<Event>, now: u64, agent: string) {
    && (|opening| == 2 || |opening| == 4)
    && opening[0] == Clock(now) && opening[1].Read? && opening[1].answer.Got?
    && opening[1].answer.facts.agent == Some(agent)
    && opening[|opening| - 1].Read? && opening[|opening| - 1].answer.Got?
    && GateRefusal(a, opening[|opening| - 1].answer.facts, agent, args.force).None?
    && (MustRefresh(a, args, now, opening[1].answer.facts) <==> |opening| == 4)
    && (|opening| == 4 ==> opening[2] == Reverify(None))
  }

  lemma LastSeenOf(run: seq<Event>, e: Event)
    ensures LastSeen(run + [e]) == if e.Read? && e.answer.Got? then Some(Seen(e.answer.facts)) else LastSeen(run)
  {
    assert (run + [e])[..|run|] == run;
  }

  lemma {:induction false} LastSeenSkips(run: seq<Event>, more: seq<Event>)
    requires forall k | 0 <= k < |more| :: !more[k].Read?
    ensures LastSeen(run + more) == LastSeen(run)
    decreases |more|
  {
    if more == [] {
      assert run + more == run;
    } else {
      assert run + more == (run + more[..|more| - 1]) + [more[|more| - 1]];
      LastSeenOf(run + more[..|more| - 1], more[|more| - 1]);
      LastSeenSkips(run, more[..|more| - 1]);
    }
  }

  /** The stored run counter says this count, of some fire. */
  ghost predicate Counts(value: string, count: u32) {
    exists fire :: value == Repeat.Encode(fire, count)
  }

  /** The audit record of a run: the last facts it was given, the count it stored if it reached an effect,
      and whether the hook lane took it. */
  ghost predicate Audited(record: Record, run: seq<Event>) {
    && record.sighting == LastSeen(run)
    && (record.repeatCount > 0 <==> exists i | 0 <= i < |run| :: run[i].Do?)
    && (forall i | 0 <= i < |run| && run[i].SetRepeat? :: Counts(run[i].value, record.repeatCount))
    && (record.tookHookLane <==> exists i | 0 <= i < |run| :: TakesHookLane(run[i]))
  }

  lemma SightingOfHold(before: seq<Event>, held: seq<Event>)
    requires held != [] && held[0].Read?
    requires forall k | 1 <= k < |held| :: !held[k].Read?
    ensures LastSeen(before + held)
         == if held[0].answer.Got? then Some(Seen(held[0].answer.facts)) else LastSeen(before)
  {
    assert [held[0]] + held[1..] == held;
    Regroup(before, [held[0]], held[1..]);
    LastSeenSkips(before + [held[0]], held[1..]);
    LastSeenOf(before, held[0]);
  }

  lemma SightingOf(opening: seq<Event>, acquire: Event, held: seq<Event>, tail: seq<Event>)
    requires !acquire.Read? && held != [] && held[0].Read?
    requires forall k | 1 <= k < |held| :: !held[k].Read?
    requires forall k | 0 <= k < |tail| :: !tail[k].Read?
    ensures LastSeen(opening + [acquire] + held + tail)
         == if held[0].answer.Got? then Some(Seen(held[0].answer.facts)) else LastSeen(opening)
  {
    LastSeenSkips(opening + [acquire] + held, tail);
    SightingOfHold(opening + [acquire], held);
    LastSeenOf(opening, acquire);
  }

  /** A hold looks at the pane once. */
  lemma ReadsOnce(a: Action, args: FireArgs, agent: string, lock: Lock, held: seq<Event>, outcome: Outcome)
    requires Held(a, args, agent, lock, held, outcome)
    ensures forall k | 1 <= k < |held| :: !held[k].Read?
  {
    if |held| > 1 { var e := Acted(a, args, agent, lock, held, outcome); }
  }

  lemma HeldRecord(a: Action, args: FireArgs, agent: string, opening: seq<Event>, acquire: Event,
                   held: seq<Event>, run: seq<Event>, outcome: Outcome)
    requires acquire.Wins() && forall k | 0 <= k < |opening| :: Preliminary(opening[k])
    requires Held(a, args, agent, acquire.won.lock, held, outcome)
    requires run == opening + [acquire] + held + Tail(acquire.won.lock, outcome)
    requires (exists i | 0 <= i < |run| :: run[i].Do?) <==> |held| > 1
    ensures Audited(Recorded(Record(LastSeen(opening), 0, false), a, held), run)
  {
    ReadsOnce(a, args, agent, acquire.won.lock, held, outcome);
    Layout(opening, acquire, held, run, outcome);
    CountOf(a, args, agent, opening, acquire, held, run, outcome);
    SightingOf(opening, acquire, held, Tail(acquire.won.lock, outcome));
    LaneInHold(opening, acquire, held, run, outcome);
  }

  /** A counter event of a run is one of its hold. */
  lemma RepeatIsHeld(opening: seq<Event>, acquire: Event, held: seq<Event>, run: seq<Event>, outcome: Outcome, i: nat)
    requires Laid(opening, acquire, held, run, outcome) && i < |run| && run[i].SetRepeat?
    ensures |opening| < i <= |opening| + |held| && run[i] == held[i - |opening| - 1]
  {
  }

  lemma RepeatInHold(a: Action, args: FireArgs, agent: string, lock: Lock, held: seq<Event>, outcome: Outcome, k: nat)
    requires Held(a, args, agent, lock, held, outcome) && k < |held| && held[k].SetRepeat?
    ensures |held| > 1 && held[0].answer.Got? && held[k] == Bumped(a, held[0].answer.facts)
  {
    var e := Acted(a, args, agent, lock, held, outcome);
  }

  lemma RecordedCount(a: Action, held: seq<Event>, before: Record)
    requires |held| > 1 && held[0].Read? && held[0].answer.Got?
    ensures Counts(Bumped(a, held[0].answer.facts).value, Recorded(before, a, held).repeatCount)
  {
    BumpCounts(a, held[0].answer.facts);
  }

  lemma CountOf(a: Action, args: FireArgs, agent: string, opening: seq<Event>, acquire: Event,
                held: seq<Event>, run: seq<Event>, outcome: Outcome)
    requires Laid(opening, acquire, held, run, outcome)
    requires Held(a, args, agent, acquire.won.lock, held, outcome)
    ensures forall i | 0 <= i < |run| && run[i].SetRepeat? ::
              Counts(run[i].value, Recorded(Record(LastSeen(opening), 0, false), a, held).repeatCount)
  {
    var before := Record(LastSeen(opening), 0, false);
    forall i | 0 <= i < |run| && run[i].SetRepeat?
      ensures Counts(run[i].value, Recorded(before, a, held).repeatCount)
    {
      RepeatIsHeld(opening, acquire, held, run, outcome, i);
      RepeatInHold(a, args, agent, acquire.won.lock, held, outcome, i - |opening| - 1);
      RecordedCount(a, held, before);
    }
  }

  lemma BumpCounts(a: Action, f: PaneFacts)
    ensures Counts(Bumped(a, f).value, Repeat.NextRepeat(f.actRepeat, Repeat.Fire(f.episodeMs, a.name)).1)
  {
  }

  lemma LaneInHold(opening: seq<Event>, acquire: Event, held: seq<Event>, run: seq<Event>, outcome: Outcome)
    requires acquire.Wins() && held != [] && forall k | 0 <= k < |opening| :: Preliminary(opening[k])
    requires run == opening + [acquire] + held + Tail(acquire.won.lock, outcome)
    ensures (exists i | 0 <= i < |run| :: TakesHookLane(run[i]))
       <==> (exists i | 0 <= i < |held| :: TakesHookLane(held[i]))
  {
    Layout(opening, acquire, held, run, outcome);
    var q := |opening|;
    forall i | 0 <= i < |run| && TakesHookLane(run[i]) ensures exists j | 0 <= j < |held| :: TakesHookLane(held[j]) {
      assert q < i <= q + |held| && TakesHookLane(held[i - q - 1]);
    }
    forall j | 0 <= j < |held| && TakesHookLane(held[j]) ensures exists i | 0 <= i < |run| :: TakesHookLane(run[i]) {
      assert TakesHookLane(run[q + 1 + j]);
    }
  }

  /** Only a detached action hands its lock on. */
  lemma SynchronousNeverSpawns(a: Action, args: FireArgs, agent: string, lock: Lock, held: seq<Event>,
                               outcome: Outcome)
    requires !a.detach && Held(a, args, agent, lock, held, outcome)
    ensures !outcome.Spawned?
  {
    if |held| > 1 { var e := Acted(a, args, agent, lock, held, outcome); }
  }

  lemma OpenedGates(a: Action, args: FireArgs, opening: seq<Event>, now: u64, agent: string,
                    answer: AcquireAnswer, rest: seq<Event>)
    requires Opened(a, args, opening, now, agent)
    ensures Gated(a, args, opening + [Asked(a, now, answer)] + rest, |opening|)
  {
    var run := opening + [Asked(a, now, answer)] + rest;
    assert forall k | 0 <= k < |opening| :: run[k] == opening[k];
  }

  function Asked(a: Action, now: u64, answer: AcquireAnswer): Event {
    Acquire(now, SatAdd(SatAdd(now, Bound(a)), SLACK_MS), a.name, answer)
  }

  /** The lock was not won. */
  lemma Unwon(a: Action, args: FireArgs, opening: seq<Event>, now: u64, agent: string, answer: AcquireAnswer,
              outcome: Outcome)
    requires PayloadRefusal(a, args).None? && !answer.Won?
    requires forall k | 0 <= k < |opening| :: Preliminary(opening[k])
    requires Opened(a, args, opening, now, agent)
    requires AcquireStop(answer) == Some(outcome)
    ensures Safe(a, args, opening + [Asked(a, now, answer)], outcome, |opening| + 1)
    ensures Audited(Record(LastSeen(opening), 0, false), opening + [Asked(a, now, answer)])
  {
    var run := opening + [Asked(a, now, answer)];
    OpenedGates(a, args, opening, now, agent, answer, []);
    assert run + [] == run;
    NeverHeld(a, args, run, outcome);
    LastSeenOf(opening, Asked(a, now, answer));
  }

  /** The lock was won. */
  lemma WonAndReleased(a: Action, args: FireArgs, opening: seq<Event>, now: u64, agent: string, lock: Lock,
                       held: seq<Event>, outcome: Outcome)
    returns (run: seq<Event>)
    requires PayloadRefusal(a, args).None?
    requires forall k | 0 <= k < |opening| :: Preliminary(opening[k])
    requires Opened(a, args, opening, now, agent)
    requires Held(a, args, agent, lock, held, outcome)
    ensures run == opening + [Asked(a, now, Won(lock))] + held + Tail(lock, outcome)
    ensures Safe(a, args, run, outcome, |opening|)
    ensures Audited(Recorded(Record(LastSeen(opening), 0, false), a, held), run)
  {
    var acquire := Asked(a, now, Won(lock));
    run := opening + [acquire] + held + Tail(lock, outcome);
    OpenedGates(a, args, opening, now, agent, Won(lock), held + Tail(lock, outcome));
    Regroup(opening + [acquire], held, Tail(lock, outcome));
    HeldSafe(a, args, agent, opening, acquire, held, run, outcome);
    HeldRecord(a, args, agent, opening, acquire, held, run, outcome);
  }

  lemma Unread(a: Action, args: FireArgs, outcome: Outcome)
    requires PayloadRefusal(a, args).Some? && outcome == Refused(BadPayload(PayloadRefusal(a, args).value))
    ensures Safe(a, args, [], outcome, 0) && Audited(Record(None, 0, false), [])
  {
  }

  lemma Unopened(a: Action, args: FireArgs, opening: seq<Event>, outcome: Outcome)
    requires PayloadRefusal(a, args).None? && OpeningStop(a, args, opening) == Some(outcome)
    requires GoesOn(a, args, opening)
    requires opening != [] && forall k | 0 <= k < |opening| :: Preliminary(opening[k])
    ensures Safe(a, args, opening, outcome, |opening|) && Audited(Record(LastSeen(opening), 0, false), opening)
  {
    NeverHeld(a, args, opening, outcome);
  }

  function HeldPart(answer: AcquireAnswer, held: seq<Event>, outcome: Outcome): seq<Event> {
    if answer.Won? then held + Tail(answer.lock, outcome) else []
  }

  predicate Ended(a: Action, args: FireArgs, agent: string, answer: AcquireAnswer, held: seq<Event>,
                  outcome: Outcome) {
    if answer.Won? then Held(a, args, agent, answer.lock, held, outcome)
    else AcquireStop(answer) == Some(outcome)
  }

  lemma Conclude(a: Action, args: FireArgs, opening: seq<Event>, now: u64, agent: string, answer: AcquireAnswer,
                 held: seq<Event>, outcome: Outcome, record: Record)
    returns (run: seq<Event>)
    requires PayloadRefusal(a, args).None?
    requires forall k | 0 <= k < |opening| :: Preliminary(opening[k])
    requires Opened(a, args, opening, now, agent)
    requires Ended(a, args, agent, answer, held, outcome)
    requires answer.Won? ==> record == Recorded(Record(LastSeen(opening), 0, false), a, held)
    requires !answer.Won? ==> record == Record(LastSeen(opening), 0, false)
    ensures run == opening + [Asked(a, now, answer)] + HeldPart(answer, held, outcome)
    ensures Safe(a, args, run, outcome, if answer.Won? then |opening| else |run|) && Audited(record, run)
  {
    if answer.Won? {
      run := WonAndReleased(a, args, opening, now, agent, answer.lock, held, outcome);
      Regroup(opening + [Asked(a, now, answer)], held, Tail(answer.lock, outcome));
    } else {
      run := opening + [Asked(a, now, answer)];
      Unwon(a, args, opening, now, agent, answer, outcome);
    }
  }
}
