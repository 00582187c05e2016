/** The action broker against an arbitrary environment. Every call the broker makes is an event of a
    ghost trace; the environment's answers are arbitrary. The contract of `ActSequence` is about that
    trace, whatever was answered. */
module Broker {
  import opened Basics
  import opened Text
  import opened Gate
  import opened Protocol
  import Repeat

  /** The environment: each call is logged with its answer, and the answer is anything at all. */
  class BrokerIo {
    ghost var trace: seq<Event>

    constructor ()
      ensures trace == []
    {
      trace := [];
    }

    method NowMs() returns (now: u64)
      modifies this
      ensures trace == old(trace) + [Clock(now)]
    {
      now := *;
      trace := trace + [Clock(now)];
    }

    method ReadPane() returns (answer: ReadAnswer)
      modifies this
      ensures trace == old(trace) + [Read(answer)]
    {
      answer := *;
      trace := trace + [Read(answer)];
    }

    method ReverifyPane() returns (result: Option<TmuxError>)
      modifies this
      ensures trace == old(trace) + [Reverify(result)]
    {
      result := *;
      trace := trace + [Reverify(result)];
    }

    method AcquireLock(now: u64, expiryMs: u64, name: string) returns (answer: AcquireAnswer)
      modifies this
      ensures trace == old(trace) + [Acquire(now, expiryMs, name, answer)]
    {
      answer := *;
      trace := trace + [Acquire(now, expiryMs, name, answer)];
    }

    method SetActRepeat(value: string)
      modifies this
      ensures trace == old(trace) + [SetRepeat(value)]
    {
      trace := trace + [SetRepeat(value)];
    }

    method HookRequestPending(request: string) returns (parked: bool)
      modifies this
      ensures trace == old(trace) + [Probe(request, parked)]
    {
      parked := *;
      trace := trace + [Probe(request, parked)];
    }

    method Perform(effect: Effect) returns (answer: EffectAnswer)
      modifies this
      ensures trace == old(trace) + [Do(effect, answer)] && Possible(effect, answer)
    {
      answer := *;
      if !Possible(effect, answer) {
        answer := Failed;
        if effect.SendKeys? || effect.SendText? { answer := TmuxFailed(OtherError); }
      }
      trace := trace + [Do(effect, answer)];
    }

    method ClearPermissionRequest()
      modifies this
      ensures trace == old(trace) + [SpendPermission]
    {
      trace := trace + [SpendPermission];
    }

    method ClearQuestionRequest()
      modifies this
      ensures trace == old(trace) + [SpendQuestion]
    {
      trace := trace + [SpendQuestion];
    }

    method ClearLock(nonce: string)
      modifies this
      ensures trace == old(trace) + [Clear(nonce)]
    {
      trace := trace + [Clear(nonce)];
    }
  }

  class ActObserved {
    var sighting: Option<Sighting>
    var repeatCount: u32
    var tookHookLane: bool

    ghost function Value(): Record
      reads this
    {
      Record(sighting, repeatCount, tookHookLane)
    }

    constructor ()
      ensures Value() == Record(None, 0, false)
    {
      sighting := None;
      repeatCount := 0;
      tookHookLane := false;
    }

    method Observe(f: PaneFacts)
      modifies this
      ensures Value() == old(Value()).(sighting := Some(Seen(f)))
    {
      sighting := Some(Seen(f));
    }
  }

  // ----- under the lock -------------------------------------------------------------------------

  method BumpRepeat(io: BrokerIo, a: Action, f: PaneFacts) returns (count: u32)
    modifies io
    ensures io.trace == old(io.trace) + [Bumped(a, f)]
    ensures count == Repeat.NextRepeat(f.actRepeat, Repeat.Fire(f.episodeMs, a.name)).1
  {
    var next := Repeat.NextRepeat(f.actRepeat, Repeat.Fire(f.episodeMs, a.name));
    io.SetActRepeat(next.0);
    count := next.1;
  }

  /** The re-read every hold starts with: it either licenses the effect or says why not. */
  method Reassert(io: BrokerIo, a: Action, args: FireArgs, agent: string, observed: ActObserved)
    returns (stop: Option<Outcome>, facts: Option<PaneFacts>, ghost answer: ReadAnswer)
    modifies io, observed
    ensures io.trace == old(io.trace) + [Read(answer)]
    ensures observed.Value() == Recorded(old(observed.Value()), a, [Read(answer)])
    ensures stop == HoldStop(a, args, agent, answer)
    ensures stop.None? <==> facts.Some?
    ensures facts.Some? ==> answer == Got(facts.value) && Licensed(a, args, agent, facts.value)
  {
    stop, facts := None, None;
    var read := io.ReadPane();
    answer := read;
    match read {
      case Missing => stop := Some(Vanished(PaneGone));
      case ReadFailed(e) => stop := Some(IoError(e));
      case Got(f) =>
        observed.Observe(f);
        var refusal := GateRefusal(a, f, agent, args.force);
        var binder := Binder(f, args);
        if f.agent != Some(agent) || !a.AppliesTo(agent) {
          stop := Some(Refused(GateRefused(WrongAgent)));
        } else if refusal.Some? {
          stop := Some(Refused(GateRefused(refusal.value)));
        } else if binder.Some? {
          stop := Some(Refused(Unbound(binder.value)));
        } else {
          facts := Some(f);
        }
    }
  }

  method SpawnDetachedUnderLock(io: BrokerIo, a: Action, args: FireArgs, agent: string, lock: Lock,
                                observed: ActObserved)
    returns (outcome: Outcome, ghost held: seq<Event>)
    requires a.WellFormed() && a.detach
    modifies io, observed
    ensures io.trace == old(io.trace) + held
    ensures Held(a, args, agent, lock, held, outcome)
    ensures observed.Value() == Recorded(old(observed.Value()), a, held)
  {
    var stop, read, answer := Reassert(io, a, args, agent, observed);
    held := [Read(answer)];
    if stop.Some? {
      outcome := stop.value;
      return;
    }
    var f := read.value;
    assert answer == Got(f);
    var count := BumpRepeat(io, a, f);
    observed.repeatCount := count;
    var effect := Supervise(lock.nonce, lock.expiryMs, a.name, agent, a.command.GetOr(""), a.detachTimeoutMs);
    var reply := io.Perform(effect);
    outcome := if reply.Delivered? then Spawned else Error;
    held := held + [Bumped(a, f)] + [Do(effect, reply)];
    assert held[2..] == [Do(effect, reply)];
  }

  /** The three arms of a key action, in order: the API, the hook lane, the key sequence. */
  method DeliverKeys(io: BrokerIo, a: Action, args: FireArgs, agent: string, lock: Lock, f: PaneFacts,
                     observed: ActObserved)
    returns (outcome: Outcome, ghost rest: seq<Event>)
    requires a.WellFormed() && a.kind.KeysKind? && PayloadRefusal(a, args).None? && Licensed(a, args, agent, f)
    modifies io, observed
    ensures io.trace == old(io.trace) + rest
    ensures Delivers(a, args, agent, f, lock, rest, outcome)
    ensures observed.Value() == old(observed.Value()).(tookHookLane :=
              old(observed.tookHookLane) || exists i | 0 <= i < |rest| :: TakesHookLane(rest[i]))
  {
    if agent in a.api {
      outcome, rest := DeliverApi(io, a, args, agent, lock, f);
      return;
    }
    rest := [];
    if agent in a.hook {
      var request := f.permissionRequest.GetOr("");
      var parked := io.HookRequestPending(request);
      rest := [Probe(request, parked)];
      if parked {
        var effect := WriteVerdict(request, a.hook[agent]);
        var reply := io.Perform(effect);
        rest := rest + [Do(effect, reply)];
        match reply {
          case Delivered =>
            observed.tookHookLane := true;
            io.ClearPermissionRequest();
            rest := rest + [SpendPermission];
            assert TakesHookLane(rest[1]);
            outcome := Replied;
          case TargetGone => outcome := Vanished(RequestSpent);
          case _ => outcome := Error;
        }
        return;
      }
    }
    var sequence := if agent in a.keys then a.keys[agent] else [];
    var reply := io.Perform(SendKeys(sequence));
    rest := rest + [Do(SendKeys(sequence), reply)];
    outcome := match reply { case TmuxFailed(e) => IoError(e) case _ => Sent };
  }

  method DeliverApi(io: BrokerIo, a: Action, args: FireArgs, agent: string, lock: Lock, f: PaneFacts)
    returns (outcome: Outcome, ghost rest: seq<Event>)
    requires a.WellFormed() && a.kind.KeysKind? && agent in a.api
    requires PayloadRefusal(a, args).None? && Licensed(a, args, agent, f)
    modifies io
    ensures io.trace == old(io.trace) + rest
    ensures Delivers(a, args, agent, f, lock, rest, outcome)
    ensures forall i | 0 <= i < |rest| :: !TakesHookLane(rest[i])
  {
    ApiRequestTotal(a, f, agent, args);
    var op := a.api[agent].op;
    var wanted := ApiRequest(a.api[agent], f, args.answers);
    var request := wanted.value;
    var effect := Post(f.apiEndpoint.GetOr(""), request.path, request.body, a.timeoutMs);
    var reply := io.Perform(effect);
    rest := [Do(effect, reply)];
    match reply {
      case Delivered =>
        match op {
          case PermissionReply =>
            io.ClearPermissionRequest();
            rest := rest + [SpendPermission];
          case QuestionReply =>
            io.ClearQuestionRequest();
            rest := rest + [SpendQuestion];
          case QuestionReject =>
            io.ClearQuestionRequest();
            rest := rest + [SpendQuestion];
          case Interrupt =>
        }
        outcome := if op.AnswersRequest() then Replied else Sent;
      case TargetGone => outcome := Vanished(RequestSpent);
      case _ => outcome := Error;
    }
  }

  /** Delivery by kind. Applicability leaves no message action without its transport. */
  method Deliver(io: BrokerIo, a: Action, args: FireArgs, agent: string, lock: Lock, f: PaneFacts,
                 observed: ActObserved)
    returns (outcome: Outcome, ghost rest: seq<Event>)
    requires a.WellFormed() && !a.detach && PayloadRefusal(a, args).None? && Licensed(a, args, agent, f)
    modifies io, observed
    ensures io.trace == old(io.trace) + rest
    ensures Delivers(a, args, agent, f, lock, rest, outcome)
    ensures observed.Value() == old(observed.Value()).(tookHookLane :=
              old(observed.tookHookLane) || exists i | 0 <= i < |rest| :: TakesHookLane(rest[i]))
  {
    match a.kind {
      case KeysKind =>
        outcome, rest := DeliverKeys(io, a, args, agent, lock, f, observed);
      case TextKind =>
        var transport := a.text[agent];
        var effect := SendText(transport.prefix, args.text.GetOr(""), transport.suffix);
        var reply := io.Perform(effect);
        outcome := match reply { case TmuxFailed(e) => IoError(e) case _ => Sent };
        rest := [Do(effect, reply)];
      case ExecKind =>
        var effect := RunCommand(a.command.GetOr(""), a.timeoutMs);
        var reply := io.Perform(effect);
        outcome := match reply { case RanTo(code) => Exited(code) case RanOut => Timeout case _ => Error };
        rest := [Do(effect, reply)];
    }
  }

  lemma HoldOf(before: Record, a: Action, args: FireArgs, agent: string, lock: Lock, f: PaneFacts,
               rest: seq<Event>, outcome: Outcome)
    returns (held: seq<Event>)
    requires Licensed(a, args, agent, f) && Delivers(a, args, agent, f, lock, rest, outcome)
    ensures held == [Read(Got(f))] + [Bumped(a, f)] + rest
    ensures Held(a, args, agent, lock, held, outcome)
    ensures Recorded(before, a, held) == Record(
        Some(Seen(f)),
        Repeat.NextRepeat(f.actRepeat, Repeat.Fire(f.episodeMs, a.name)).1,
        before.tookHookLane || exists i | 0 <= i < |rest| :: TakesHookLane(rest[i]))
  {
    held := [Read(Got(f))] + [Bumped(a, f)] + rest;
    assert held[2..] == rest;
    forall i | 0 <= i < |rest| && TakesHookLane(rest[i])
      ensures exists k | 0 <= k < |held| :: TakesHookLane(held[k])
    {
      assert TakesHookLane(held[i + 2]);
    }
    forall k | 0 <= k < |held| && TakesHookLane(held[k])
      ensures exists i | 0 <= i < |rest| :: TakesHookLane(rest[i])
    {
      assert k >= 2 && TakesHookLane(rest[k - 2]);
    }
  }

  /** Count the fire, then deliver. */
  method Proceed(io: BrokerIo, a: Action, args: FireArgs, agent: string, lock: Lock, f: PaneFacts,
                 observed: ActObserved)
    returns (outcome: Outcome, ghost rest: seq<Event>)
    requires a.WellFormed() && !a.detach && PayloadRefusal(a, args).None? && Licensed(a, args, agent, f)
    modifies io, observed
    ensures io.trace == old(io.trace) + [Bumped(a, f)] + rest
    ensures Delivers(a, args, agent, f, lock, rest, outcome)
    ensures observed.Value() == Record(
        old(observed.sighting),
        Repeat.NextRepeat(f.actRepeat, Repeat.Fire(f.episodeMs, a.name)).1,
        old(observed.tookHookLane) || exists i | 0 <= i < |rest| :: TakesHookLane(rest[i]))
  {
    var count := BumpRepeat(io, a, f);
    observed.repeatCount := count;
    outcome, rest := Deliver(io, a, args, agent, lock, f, observed);
  }

  lemma StopOf(a: Action, args: FireArgs, agent: string, lock: Lock, answer: ReadAnswer, outcome: Outcome)
    requires HoldStop(a, args, agent, answer) == Some(outcome)
    ensures Held(a, args, agent, lock, [Read(answer)], outcome)
  {
  }

  method ActUnderLock(io: BrokerIo, a: Action, args: FireArgs, agent: string, lock: Lock, observed: ActObserved)
    returns (outcome: Outcome, ghost held: seq<Event>)
    requires a.WellFormed() && !a.detach && PayloadRefusal(a, args).None?
    modifies io, observed
    ensures io.trace == old(io.trace) + held
    ensures Held(a, args, agent, lock, held, outcome)
    ensures observed.Value() == Recorded(old(observed.Value()), a, held)
  {
    var stop, read, answer := Reassert(io, a, args, agent, observed);
    if stop.Some? {
      outcome, held := stop.value, [Read(answer)];
      StopOf(a, args, agent, lock, answer, outcome);
    } else {
      var f := read.value;
      ghost var rest;
      outcome, rest := Proceed(io, a, args, agent, lock, f, observed);
      held := HoldOf(old(observed.Value()), a, args, agent, lock, f, rest, outcome);
      Associate(old(io.trace), [Read(answer)], [Bumped(a, f)], rest);
    }
  }

  // ----- the sequence ---------------------------------------------------------------------------

  /** Identity, freshness and gate, before the lock. */
  method PassGate(io: BrokerIo, a: Action, args: FireArgs, observed: ActObserved)
    returns (stop: Option<Outcome>, now: u64, agent: string, ghost opening: seq<Event>)
    requires observed.sighting == None
    modifies io, observed
    ensures io.trace == old(io.trace) + opening
    ensures opening != [] && forall k | 0 <= k < |opening| :: Preliminary(opening[k])
    ensures observed.Value() == old(observed.Value()).(sighting := LastSeen(opening))
    ensures stop == OpeningStop(a, args, opening) && GoesOn(a, args, opening)
    ensures stop.None? ==> Opened(a, args, opening, now, agent)
  {
    stop, agent := None, "";
    now := io.NowMs();
    var first := io.ReadPane();
    opening := [Clock(now), Read(first)];
    LastSeenOf([Clock(now)], Read(first));
    match first {
      case Missing => stop := Some(Vanished(PaneGone)); return;
      case ReadFailed(e) => stop := Some(IoError(e)); return;
      case Got(f) =>
        observed.Observe(f);
        if f.agent.None? || !a.AppliesTo(f.agent.value) {
          stop := Some(Refused(GateRefused(WrongAgent)));
          return;
        }
        agent := f.agent.value;
        var facts := f;
        if MustRefresh(a, args, now, f) {
          var failure := io.ReverifyPane();
          opening := opening + [Reverify(failure)];
          LastSeenOf([Clock(now), Read(first)], Reverify(failure));
          if failure.Some? {
            stop := Some(IoError(failure.value));
            return;
          }
          var second := io.ReadPane();
          LastSeenOf(opening, Read(second));
          opening := opening + [Read(second)];
          match second {
            case Missing => stop := Some(Vanished(PaneGone)); return;
            case ReadFailed(e) => stop := Some(IoError(e)); return;
            case Got(g) =>
              observed.Observe(g);
              facts := g;
          }
        }
        var refusal := GateRefusal(a, facts, agent, args.force);
        if refusal.Some? {
          stop := Some(Refused(GateRefused(refusal.value)));
        }
    }
  }

  /** The hold and its release: a spawned supervisor keeps the lock, every other exit clears it. */
  method ActAndRelease(io: BrokerIo, a: Action, args: FireArgs, agent: string, lock: Lock, observed: ActObserved)
    returns (outcome: Outcome, ghost held: seq<Event>)
    requires a.WellFormed() && PayloadRefusal(a, args).None?
    modifies io, observed
    ensures io.trace == old(io.trace) + held + Tail(lock, outcome)
    ensures Held(a, args, agent, lock, held, outcome)
    ensures observed.Value() == Recorded(old(observed.Value()), a, held)
  {
    if a.detach {
      outcome, held := SpawnDetachedUnderLock(io, a, args, agent, lock, observed);
      if !outcome.Spawned? {
        io.ClearLock(lock.nonce);
      }
    } else {
      outcome, held := ActUnderLock(io, a, args, agent, lock, observed);
      io.ClearLock(lock.nonce);
      SynchronousNeverSpawns(a, args, agent, lock, held, outcome);
    }
  }

  /** Lock, act, release. */
  method LockAndAct(io: BrokerIo, a: Action, args: FireArgs, now: u64, agent: string, observed: ActObserved)
    returns (outcome: Outcome, ghost answer: AcquireAnswer, ghost held: seq<Event>)
    requires a.WellFormed() && PayloadRefusal(a, args).None?
    modifies io, observed
    ensures io.trace == old(io.trace) + [Asked(a, now, answer)] + HeldPart(answer, held, outcome)
    ensures Ended(a, args, agent, answer, held, outcome)
    ensures observed.Value() == if answer.Won? then Recorded(old(observed.Value()), a, held) else old(observed.Value())
  {
    var reply := io.AcquireLock(now, SatAdd(SatAdd(now, Bound(a)), SLACK_MS), a.name);
    answer, held := reply, [];
    match reply {
      case Contended => outcome := Refused(Locked);
      case LockFailed(e) => outcome := IoError(e);
      case NonceFailed => outcome := Error;
      case Won(lock) => outcome, held := ActAndRelease(io, a, args, agent, lock, observed);
    }
  }

  /** The pinned sequence: payload, identity, gate, lock, act, release. Whatever the environment
      answers, the run is safe and the audit record describes it. */
  method ActSequence(io: BrokerIo, a: Action, args: FireArgs, observed: ActObserved)
    returns (outcome: Outcome, ghost run: seq<Event>, ghost q: nat)
    requires a.WellFormed() && observed.Value() == Record(None, 0, false)
    modifies io, observed
    ensures io.trace == old(io.trace) + run
    ensures Safe(a, args, run, outcome, q)
    ensures Audited(observed.Value(), run)
  {
    var payload := PayloadRefusal(a, args);
    if payload.Some? {
      outcome, run, q := Refused(BadPayload(payload.value)), [], 0;
      Unread(a, args, outcome);
      return;
    }
    var stop, now, agent, opening := PassGate(io, a, args, observed);
    if stop.Some? {
      outcome, run, q := stop.value, opening, |opening|;
      Unopened(a, args, opening, outcome);
    } else {
      ghost var answer, held;
      outcome, answer, held := LockAndAct(io, a, args, now, agent, observed);
      run := Conclude(a, args, opening, now, agent, answer, held, outcome, observed.Value());
      q := if answer.Won? then |opening| else |run|;
      Associate(old(io.trace), opening, [Asked(a, now, answer)], HeldPart(answer, held, outcome));
    }
  }
}
