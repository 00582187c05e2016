/** The window between a cycle's read and its write: it folds on one store and writes on a later one.
    Whether a hook claim that has landed in between stands. */
module Window {
  import opened Basics
  import opened Decimal
  import opened PaneStore
  import opened Stamp
  import opened Publish
  import opened Atomicity
  import opened Mirror
  import opened Fold
  import opened Grouped
  import opened Races
  import opened Cycle
  import opened Overlap

  // ----- the grouped transaction ------------------------------------------------------------------

  /** A cycle that folded on `seen` commits on `now`. */
  function SubmitCycle(now: Server, seen: Server, o: Observation, t: Tuning): Server {
    var v := JudgePane(seen.options, o, t);
    if v.writes.action == Commit then Submit(now, seen, PublishFor(v, o, t.name))
    else if now.receipt == seen.receipt && ProjectionUnchanged(now.options, seen.options)
    then Server(Run(now.options, HoldCommands(o.now, Some(o.hash))), now.receipt + 1)
    else now
  }

  /** A hook event that lands in the window wins outright: the cycle writes nothing, not even its
      bookkeeping. */
  lemma HookWinsTransaction(seen: Server, looked: Server, p: Publish, o: Observation, t: Tuning)
    requires HookStamp(p) && Submit(seen, looked, p) != seen
    ensures var hooked := Submit(seen, looked, p);
      SubmitCycle(hooked, seen, o, t) == hooked && ClaimIn(TupleOf(hooked.options)) == GroupedBy(p)
  {
    HookSubmit(seen, looked, p);
  }

  /** The other way round the hook event loses, whatever it says: any cycle that commits, if only its
      bookkeeping, makes an event whose writer looked before it drop out. */
  lemma CycleDropsHook(seen: Server, p: Publish, o: Observation, t: Tuning)
    requires HookStamp(p) && SubmitCycle(seen, seen, o, t) != seen
    ensures var written := SubmitCycle(seen, seen, o, t);
      Submit(written, seen, p) == written
  {
    var v := JudgePane(seen.options, o, t);
    if v.writes.action == Commit { SubmitExact(seen, seen, PublishFor(v, o, t.name)); }
  }

  // ----- the chain ----------------------------------------------------------------------------------

  /** A cycle that folded on `seen` writes its chain on `s`. */
  function ChainLate(s: Options, seen: Options, o: Observation, t: Tuning): Options {
    var v := JudgePane(seen, o, t);
    if v.writes.action == Hold then Run(s, HoldCommands(o.now, Some(o.hash)))
    else Run(s, PublishCommands(PublishFor(v, o, t.name)))
  }

  /** What spares a hook claim that the fold has not seen: the cycle holds, or says the same, or has no
      right to override and brings no blocker newer than the claim. */
  predicate Spared(s: Options, v: Verdict) {
    var evidence := Operand(Get(s, EvidenceAt));
    || v.writes.action == Hold
    || (v.source == Hook && v.state.Token() == Get(s, State))
    || (&& !v.writes.mayOverride && !v.writes.episodeReset
        && (v.source != Hook && v.state == Blocked ==> evidence.Some? && v.at <= evidence.value))
  }

  lemma LateGuard(s: Options, v: Verdict)
    requires Get(s, Source) == Hook.Token() && v.writes.action == Commit
    ensures Spared(s, v) <==> GuardFor(v).Blocks(s) || (v.source == Hook && v.state.Token() == Get(s, State))
  {
    BlocksMeaning(GuardFor(v), s);
  }

  lemma LateTexts(s: Options, v: Verdict, o: Observation, name: string)
    requires Get(s, Source) == Hook.Token() && v.writes.action == Commit
    ensures var p := PublishFor(v, o, name); var after := TupleOf(Run(s, PublishCommands(p)));
      if Commits(s, p)
      then after.state == v.state.Token() && after.source == v.source.Token() && after.evidenceAt == Show(v.at)
      else after == TupleOf(s)
  {
    var p := PublishFor(v, o, name);
    PlanIsPaired(v, o, name);
    if Commits(s, p) { CommittedTexts(s, p); } else { HeldTexts(s, p); }
  }

  /** A hook claim that landed in the window stands if and only if it is spared. The exceptions to the
      promise are the publishes that may override, the episode resets, and newer blocker chrome. */
  lemma HookWinsChainExactly(s: Options, seen: Options, o: Observation, t: Tuning)
    requires Get(s, Source) == Hook.Token()
    ensures var v, after := JudgePane(seen, o, t), ChainLate(s, seen, o, t);
      Get(after, State) == Get(s, State) && Get(after, Source) == Hook.Token() <==> Spared(s, v)
  {
    var v := JudgePane(seen, o, t);
    if v.writes.action == Hold {
      HoldTexts(s, o.hash, o.now);
    } else {
      HookToken(v.source);
      LateGuard(s, v);
      LateTexts(s, v, o, t.name);
      var after := TupleOf(ChainLate(s, seen, o, t));
      assert after.state == Get(ChainLate(s, seen, o, t), State);
      assert after.source == Get(ChainLate(s, seen, o, t), Source);
    }
  }

  /** A corroboration that finds its state in the store rewrites the evidence time of whatever hook claim
      is there, and so can move it back. */
  lemma CorroborationRewritesTime(s: Options, seen: Options, o: Observation, t: Tuning)
    requires Get(s, Source) == Hook.Token()
    requires var v := JudgePane(seen, o, t);
      v.writes.action == Commit && v.source == Hook && !v.writes.mayOverride && v.state.Token() == Get(s, State)
    ensures Get(ChainLate(s, seen, o, t), EvidenceAt) == Show(JudgePane(seen, o, t).at)
  {
    var v := JudgePane(seen, o, t);
    BlocksMeaning(GuardFor(v), s);
    LateTexts(s, v, o, t.name);
    assert TupleOf(ChainLate(s, seen, o, t)).evidenceAt == Get(ChainLate(s, seen, o, t), EvidenceAt);
  }

  // ----- the exception is reachable ---------------------------------------------------------------

  /** A hook claim of `working`, and one of `blocked` that arrives in the window. */
  function WorkingPane(): Options {
    map[State := Working.Token(), Source := Hook.Token()]
  }

  function BlockedAt(at: u64): Publish {
    Publish(Blocked, None, Hook, at, at, at, None, 1, "claude", true, false, HookArbitrate(at))
  }

  /** No decay window and no dwell, with `working` visible on the screen. */
  function Hasty(lane: Lane): Tuning {
    Tuning("claude", {Working}, FoldConfig(0, 0, 0), lane)
  }

  /** Idle chrome that has outlived the stored claim is published without arbitration, over the question
      the hook reported after the read. */
  lemma DecayOverridesHook(at: u64, later: u64)
    requires 0 < at < later
    ensures var s, o := Run(WorkingPane(), PublishCommands(BlockedAt(later))), ScreenCycle(Idle, 1, at);
      && Get(s, State) == Blocked.Token() && Get(s, Source) == Hook.Token()
      && Get(ChainLate(s, WorkingPane(), o, Hasty(Chain)), State) == Idle.Token()
  {
    var p, o, t := BlockedAt(later), ScreenCycle(Idle, 1, at), Hasty(Chain);
    var s := Run(WorkingPane(), PublishCommands(p));
    BlocksMeaning(p.guard, WorkingPane());
    CommittedTexts(WorkingPane(), p);
    DecayedIdle(at);
    var v := JudgePane(WorkingPane(), o, t);
    BlocksMeaning(GuardFor(v), s);
    LateTexts(s, v, o, t.name);
    assert TupleOf(s).state == Get(s, State) && TupleOf(s).source == Get(s, Source);
    var after := ChainLate(s, WorkingPane(), o, t);
    assert TupleOf(after).state == Get(after, State);
  }

  lemma DecayedIdle(at: u64)
    requires 0 < at
    ensures var v := JudgePane(WorkingPane(), ScreenCycle(Idle, 1, at), Hasty(Chain));
      v.state == Idle && v.writes.action == Commit && v.writes.mayOverride
  {
    var o := ScreenCycle(Idle, 1, at);
    DecodeTexts(WorkingPane(), Working, Hook, 0, 0, 0, 0);
    LatestMeaning(o.evidence, e => IsHookState(e));
    ScreenMeaning(o.evidence);
    ScreenSees(Idle, 1, at);
  }
}
