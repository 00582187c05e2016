/** What a safe run of the broker means to the caller and to the pane: when the caller's binder refuses,
    which effect an action can have, what is told of it, and what is spent. */
module Runs {
  import opened Basics
  import opened Text
  import opened Gate
  import opened Protocol
  import Repeat

  // ----- errors ---------------------------------------------------------------------------------

  /** A failed call means that the pane is gone only if tmux says so, in one of its three wordings and in
      whatever case. */
  lemma PaneGoneExactly(e: TmuxError)
    ensures IoError(e) == Vanished(PaneGone)
       <==> || e == PaneAbsent
            || (e.CommandFailed? && exists at: nat ::
                  || OccursAt(Lower(e.stderr), "can't find pane", at)
                  || OccursAt(Lower(e.stderr), "no such pane", at)
                  || OccursAt(Lower(e.stderr), "pane not found", at))
    ensures IoError(e) != Vanished(PaneGone) ==> IoError(e) == Error
  {
    if e.CommandFailed? {
      var s := Lower(e.stderr);
      FindExact(s, "can't find pane");
      FindExact(s, "no such pane");
      FindExact(s, "pane not found");
    }
  }

  /** ASCII capitals, and they alone, are lowered. */
  lemma LowerExactly(s: string, i: nat)
    requires i < |s|
    ensures |Lower(s)| == |s|
    ensures 'A' <= s[i] <= 'Z' ==>
      'a' <= Lower(s)[i] <= 'z' && Lower(s)[i] as int - 'a' as int == s[i] as int - 'A' as int
    ensures !('A' <= s[i] <= 'Z') ==> Lower(s)[i] == s[i]
  {
  }

  // ----- the read under the lock ----------------------------------------------------------------

  predicate EpisodeDiffers(f: PaneFacts, args: FireArgs) {
    args.expectEpisode.Some? && f.episodeMs != args.expectEpisode.value
  }

  predicate RequestDiffers(f: PaneFacts, args: FireArgs) {
    args.expectPermission.Some? && f.permissionRequest != args.expectPermission
  }

  /** The run won the lock and its read under it brought these facts. */
  predicate ReadUnderLock(run: seq<Event>, q: nat, f: PaneFacts) {
    q + 1 < |run| && run[q].Wins() && run[q + 1] == Read(Got(f)) && run[1].Read? && run[1].answer.Got?
  }

  /** What a run that won the lock and read the pane ends in: the first thing that does not hold is what it
      is refused for, and a run refused for nothing has its effect. */
  lemma HoldEndsExactly(a: Action, args: FireArgs, run: seq<Event>, outcome: Outcome, q: nat, f: PaneFacts)
    requires Safe(a, args, run, outcome, q) && ReadUnderLock(run, q, f)
    ensures run[1].answer.facts.agent.Some?
    ensures var agent := run[1].answer.facts.agent.value;
      var same := f.agent == Some(agent) && a.AppliesTo(agent);
      var open := same && GateRefusal(a, f, agent, args.force).None?;
      && (outcome == Refused(GateRefused(WrongAgent)) <==> !same)
      && (forall reason | reason != WrongAgent ::
            outcome == Refused(GateRefused(reason)) <==> same && GateRefusal(a, f, agent, args.force) == Some(reason))
      && (outcome == Refused(Unbound(EpisodeChanged)) <==> open && EpisodeDiffers(f, args))
      && (outcome == Refused(Unbound(RequestGone)) <==>
          open && !EpisodeDiffers(f, args) && RequestDiffers(f, args))
      && ((exists i | 0 <= i < |run| :: run[i].Do?) <==>
          open && !EpisodeDiffers(f, args) && !RequestDiffers(f, args))
  {
    var agent := run[1].answer.facts.agent.value;
    if a.AppliesTo(agent) { NeverWrongAgent(a, f, agent, args.force); }
    var stop := HoldStop(a, args, agent, run[q + 1].answer);
    if i :| 0 <= i < |run| && run[i].Do? {
      assert Guarded(a, args, run, outcome, q, i);
      EffectsAnswer(a, run[i].effect, run[i].reply, agent);
    }
  }

  /** The gate blames the agent only where the action does not apply to it. */
  lemma NeverWrongAgent(a: Action, f: PaneFacts, agent: string, force: bool)
    requires a.AppliesTo(agent)
    ensures GateRefusal(a, f, agent, force) != Some(WrongAgent)
  {
    GateExact(a, f, agent);
  }

  lemma EffectsAnswer(a: Action, effect: Effect, reply: EffectAnswer, agent: string)
    ensures !Told(a, agent, effect, reply).Refused?
  {
  }

  /** Every effect is performed on the agent, in the episode and for the request the caller named. */
  lemma EffectIsBound(a: Action, args: FireArgs, run: seq<Event>, outcome: Outcome, q: nat, i: nat)
    requires Safe(a, args, run, outcome, q) && i < |run| && run[i].Do?
    ensures q + 1 < i && run[q + 1].Read? && run[q + 1].answer.Got?
    ensures var f := run[q + 1].answer.facts;
      && (args.expectEpisode.Some? ==> f.episodeMs == args.expectEpisode.value)
      && (args.expectPermission.Some? ==> f.permissionRequest == args.expectPermission)
  {
    assert Guarded(a, args, run, outcome, q, i);
  }

  /** A read that brings nothing ends the run: the pane is gone, or the call failed. */
  lemma FailedReadEnds(a: Action, args: FireArgs, run: seq<Event>, outcome: Outcome, q: nat)
    requires Safe(a, args, run, outcome, q) && run != [] && q + 1 < |run| && run[q].Wins()
    ensures run[q + 1].Read?
    ensures run[q + 1].answer.Missing? ==> outcome == Vanished(PaneGone)
    ensures run[q + 1].answer.ReadFailed? ==> outcome == IoError(run[q + 1].answer.e)
  {
  }

  // ----- before the lock ------------------------------------------------------------------------

  /** The stamp a keystroke rests on is younger than three seconds and not from the future, unless the
      caller forces it; an older one is verified and read again first, and nothing else is. */
  lemma KeystrokesAreFresh(a: Action, args: FireArgs, run: seq<Event>, outcome: Outcome, q: nat, k: nat)
    requires Safe(a, args, run, outcome, q) && k < |run| && run[k].Acquire?
    ensures run[0].Clock? && run[1].Read? && run[1].answer.Got?
    ensures var age := run[0].now - run[1].answer.facts.stampedAt;
      var stale := run[1].answer.facts.stampedAt == 0 || age < 0 || age >= 3_000;
      && (k == 4 <==> (a.kind.KeysKind? || a.kind.TextKind?) && !args.force && stale)
      && (k == 4 ==> run[2] == Reverify(None) && run[3].Read?)
      && (k == 4 || k == 2)
  {
    assert Protocol.Gated(a, args, run, k);
  }

  /** The lock is asked for until five seconds past the action's own time limit. */
  lemma LockDeadline(a: Action, args: FireArgs, run: seq<Event>, outcome: Outcome, q: nat, k: nat)
    requires Safe(a, args, run, outcome, q) && k < |run| && run[k].Acquire?
    ensures run[0].Clock? && run[k].name == a.name
    ensures var deadline := run[0].now + (if a.detach then a.detachTimeoutMs else a.timeoutMs) + 5_000;
      run[k].expiryMs == if deadline <= U64_MAX then deadline else U64_MAX
  {
    assert Protocol.Gated(a, args, run, k);
  }

  lemma OpeningLooksAtFour(a: Action, args: FireArgs, run: seq<Event>)
    ensures |run| >= 4 ==> OpeningStop(a, args, run[..4]) == OpeningStop(a, args, run)
  {
  }

  lemma OpeningShape(a: Action, args: FireArgs, run: seq<Event>)
    requires OpeningStop(a, args, run).Some? && GoesOn(a, args, run)
    ensures 2 <= |run| <= 4 && run[0].Clock? && run[1].Read?
    ensures |run| == 3 ==> run[2].Reverify? && run[2].failure.Some?
    ensures |run| == 4 ==> run[3].Read? && run[2] == Reverify(None) && run[1].answer.Got?
    ensures |run| > 2 ==>
      && run[1].answer.Got? && MustRefresh(a, args, run[0].now, run[1].answer.facts)
      && run[1].answer.facts.agent.Some? && a.AppliesTo(run[1].answer.facts.agent.value)
  {
    if |run| > 2 { assert OpeningStop(a, args, run[..2]).None?; }
    if |run| > 3 { assert OpeningStop(a, args, run[..3]).None?; }
    OpeningLooksAtFour(a, args, run);
  }

  /** What ends a run before the lock is its last call: a pane gone, a failed call, a refusing gate, an
      agent the action is not for, or a lock that is not to be had. */
  lemma StopsExactly(a: Action, args: FireArgs, run: seq<Event>, outcome: Outcome, q: nat)
    requires Safe(a, args, run, outcome, q) && run != [] && q >= |run|
    ensures var last := run[|run| - 1];
      && (last.Read? && last.answer.Missing? ==> outcome == Vanished(PaneGone))
      && (last.Read? && last.answer.ReadFailed? ==> outcome == IoError(last.answer.e))
      && (last.Reverify? && last.failure.Some? ==> outcome == IoError(last.failure.value))
      && (last.Acquire? && last.won.Contended? ==> outcome == Refused(Locked))
      && (last.Acquire? && last.won.LockFailed? ==> outcome == IoError(last.won.e))
      && (last.Acquire? && last.won.NonceFailed? ==> outcome == Error)
      && (last.Read? && last.answer.Got? ==>
            && |run| >= 2 && run[1].Read? && run[1].answer.Got?
            && var agent := run[1].answer.facts.agent;
               if agent.None? || !a.AppliesTo(agent.value) then outcome == Refused(GateRefused(WrongAgent))
               else && GateRefusal(a, last.answer.facts, agent.value, args.force).Some?
                    && outcome ==
                         Refused(GateRefused(GateRefusal(a, last.answer.facts, agent.value, args.force).value)))
  {
    if !run[|run| - 1].Acquire? { OpeningShape(a, args, run); }
  }

  // ----- effects --------------------------------------------------------------------------------

  /** The facts read under the lock, its nonce, and the agent, of the effect at `i`. */
  predicate Acts(a: Action, args: FireArgs, run: seq<Event>, outcome: Outcome, q: nat, i: nat, f: PaneFacts,
                 agent: string, lock: Lock) {
    && q + 1 < i < |run| && run[i].Do? && run[q + 1] == Read(Got(f)) && f.agent == Some(agent)
    && run[q].Acquire? && run[q].won == Won(lock)
    && Guarded(a, args, run, outcome, q, i)
  }

  /** Which effect an action can have. Each of the six belongs to one kind of action and one transport of
      the agent, and carries what the manifest, the caller and the pane say. */
  lemma EffectExactly(a: Action, args: FireArgs, run: seq<Event>, outcome: Outcome, q: nat, i: nat, f: PaneFacts,
                      agent: string, lock: Lock)
    requires a.WellFormed() && Acts(a, args, run, outcome, q, i, f, agent, lock)
    ensures var e := run[i].effect;
      && (e.Supervise? <==> a.detach)
      && (e.RunCommand? <==> a.kind.ExecKind? && !a.detach)
      && (e.SendText? <==> a.kind.TextKind?)
      && (e.Post? <==> a.kind.KeysKind? && agent in a.api)
      && (e.WriteVerdict? <==> a.kind.KeysKind? && agent in a.hook && run[i - 1].Probe? && run[i - 1].parked)
      && (e.SendKeys? ==> a.kind.KeysKind? && agent !in a.api)
      && (e.Supervise? ==> e.nonce == lock.nonce && e.expiryMs == lock.expiryMs && e.action == a.name
                           && e.agent == agent && Some(e.command) == a.command && e.timeoutMs == a.detachTimeoutMs)
      && (e.RunCommand? ==> Some(e.command) == a.command && e.timeoutMs == a.timeoutMs)
      && (e.SendText? ==> agent in a.text && e.prefix == a.text[agent].prefix && e.suffix == a.text[agent].suffix
                          && e.text == args.text.GetOr(""))
      && (e.Post? ==> e.timeoutMs == a.timeoutMs && e.endpoint == f.apiEndpoint.GetOr("")
                      && ApiRequest(a.api[agent], f, args.answers) == Some(Request(e.path, e.body)))
      && (e.WriteVerdict? ==> e.verdict == a.hook[agent] && e.request == f.permissionRequest.GetOr(""))
      && (e.SendKeys? ==> e.keys == if agent in a.keys then a.keys[agent] else [])
  {
  }

  /** What the caller is told: each outcome of an effect belongs to one answer of its environment. A
      delivered request counts as a reply exactly if it answers one the agent had made. */
  lemma OutcomeExactly(a: Action, args: FireArgs, run: seq<Event>, outcome: Outcome, q: nat, i: nat, f: PaneFacts,
                       agent: string, lock: Lock)
    requires a.WellFormed() && Acts(a, args, run, outcome, q, i, f, agent, lock)
    requires Possible(run[i].effect, run[i].reply)
    ensures var e, r := run[i].effect, run[i].reply;
      && (outcome == Spawned <==> e.Supervise? && r == Delivered)
      && (outcome == Replied <==> r == Delivered && (e.WriteVerdict? || (e.Post? && a.api[agent].op != Interrupt)))
      && (outcome == Sent <==>
          r == Delivered && (e.SendKeys? || e.SendText? || (e.Post? && a.api[agent].op == Interrupt)))
      && (forall code :: outcome == Exited(code) <==> r == RanTo(code))
      && (outcome == Timeout <==> r == RanOut)
      && (outcome == Vanished(RequestSpent) <==> r == TargetGone)
      && (r.TmuxFailed? ==> outcome == IoError(r.e))
      && (r == Failed ==> outcome == Error)
  {
    EffectExactly(a, args, run, outcome, q, i, f, agent, lock);
    PaneGoneExactly(if run[i].reply.TmuxFailed? then run[i].reply.e else OtherError);
  }

  /** A request id is used up exactly by a delivered answer to it: the permission by a verdict or a reply,
      the question by a reply or a rejection. */
  lemma SpentExactly(a: Action, args: FireArgs, run: seq<Event>, outcome: Outcome, q: nat, i: nat, f: PaneFacts,
                     agent: string, lock: Lock)
    requires a.WellFormed() && Acts(a, args, run, outcome, q, i, f, agent, lock)
    ensures var e, r := run[i].effect, run[i].reply;
      && (SpendPermission in run[i + 1..] <==>
          r == Delivered && (e.WriteVerdict? || (e.Post? && a.api[agent].op == PermissionReply)))
      && (SpendQuestion in run[i + 1..] <==>
          r == Delivered && e.Post? && a.api[agent].op in {QuestionReply, QuestionReject})
  {
    EffectExactly(a, args, run, outcome, q, i, f, agent, lock);
    var rest := Spent(a, agent, run[i].effect, run[i].reply);
    var tail := Tail(lock, outcome);
    assert forall e :: e in rest + tail <==> e in rest || e in tail;
  }

  /** The fire is counted under the pane's episode and the action's name, one past what was stored. */
  lemma CountExactly(a: Action, args: FireArgs, run: seq<Event>, outcome: Outcome, q: nat, i: nat, f: PaneFacts,
                     agent: string, lock: Lock)
    requires a.WellFormed() && Acts(a, args, run, outcome, q, i, f, agent, lock)
    ensures run[q + 2].SetRepeat?
    ensures var fire := Repeat.Fire(f.episodeMs, a.name);
      Repeat.ParseRepeat(run[q + 2].value, fire) == Some(Saturated(Repeat.Prior(f.actRepeat, fire) + 1))
  {
    var fire := Repeat.Fire(f.episodeMs, a.name);
    Repeat.StoredReads(fire, Repeat.NextCount(f.actRepeat, fire), fire);
  }
}
