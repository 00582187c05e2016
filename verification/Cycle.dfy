/** Runs of detection cycles: read the stored tuple, fold it with the cycle's evidence, choose the
    write guard, write, and read again next time. */
module Cycle {
  import opened Basics
  import opened Decimal
  import opened PaneStore
  import opened Stamp
  import opened Publish
  import opened Atomicity
  import opened Mirror
  import opened Fold
  import opened Grouped
  import Verdicts

  datatype Observation = Observation(facts: SnapshotFacts, evidence: seq<Evidence>, hash: u64, now: u64)

  /** How a publish is committed: as a chain whose every field re-reads the guard, or as one grouped
      transaction that reads it once and writes nothing when it suppresses. */
  datatype Lane = Chain | Transaction

  datatype Tuning = Tuning(name: string, visible: set<AgentState>, cfg: FoldConfig, lane: Lane)

  /** The write guard of a verdict's publish. */
  function GuardFor(v: Verdict): Guard {
    if v.writes.episodeReset || v.writes.mayOverride then Unconditional
    else if v.source == Hook then RefreshClaim(v.state)
    else if v.state == Blocked then CarveOut(v.at)
    else ProtectHook
  }

  function PublishFor(v: Verdict, o: Observation, name: string): Publish {
    Publish(v.state, v.detail, v.source, v.at, v.at, o.now, Some(o.hash), o.facts.pid, name,
            v.writes.setAttention, v.writes.episodeReset, GuardFor(v))
  }

  function JudgePane(s: Options, o: Observation, t: Tuning): Verdict {
    Judge(ReadPane(s).Prior(), o.facts, o.evidence, t.visible, t.cfg, o.now, None)
  }

  /** One whole cycle against the store. */
  function Observe(s: Options, o: Observation, t: Tuning): Options {
    var v := JudgePane(s, o, t);
    if v.writes.action == Hold then Run(s, HoldCommands(o.now, Some(o.hash)))
    else Write(s, PublishFor(v, o, t.name), t.lane)
  }

  function Write(s: Options, p: Publish, lane: Lane): Options {
    match lane
    case Chain => Run(s, PublishCommands(p))
    case Transaction => Group(s, p)
  }

  function ObserveAll(s: Options, os: seq<Observation>, t: Tuning): Options
    decreases |os|
  {
    if os == [] then s else ObserveAll(Observe(s, os[0], t), os[1..], t)
  }

  /** Every guard the fold chooses is paired with its claim, so a capture chain never tears. */
  lemma PlanIsPaired(v: Verdict, o: Observation, name: string)
    ensures Paired(PublishFor(v, o, name))
    ensures forall s: Options :: !Tears(TupleOf(s), PublishFor(v, o, name))
  {
  }

  // ----- what one cycle leaves ----------------------------------------------------------------

  lemma HoldLeaves(s: Options, o: Observation)
    requires ReadPane(s).Prior().Some?
    ensures var after := ReadPane(Run(s, HoldCommands(o.now, Some(o.hash)))).Prior();
      after.Some? && after.value == ReadPane(s).Prior().value.(stampedAt := ToMillis(o.now), hash := Some(o.hash))
  {
    HoldTexts(s, o.hash, o.now);
    ShowValue(o.hash);
    ShowValue(o.now);
    ParseU64Show(o.hash);
    ParseU64Show(o.now);
    HoldReads(s, Run(s, HoldCommands(o.now, Some(o.hash))), o.hash, o.now);
  }

  lemma HoldTexts(s: Options, hash: u64, now: u64)
    ensures Run(s, HoldCommands(now, Some(hash))) == s[Hash := Show(hash)][StampedAt := Show(now)]
  {
    var none: seq<Command> := [];
    RunPush(s, none, SetPlain(Hash, Show(hash)));
    RunPush(s, none + [SetPlain(Hash, Show(hash))], SetPlain(StampedAt, Show(now)));
    assert none + [SetPlain(Hash, Show(hash))] + [SetPlain(StampedAt, Show(now))] == HoldCommands(now, Some(hash));
  }

  lemma KeptFields(s: Options, t: Options, hash: u64, now: u64)
    requires forall k :: k != Hash && k != StampedAt ==> Get(t, k) == Get(s, k)
    requires Get(t, Hash) != "" && ParseU64(Get(t, Hash)) == Some(hash)
    requires Get(t, StampedAt) != "" && ParseU64(Get(t, StampedAt)) == Some(now)
    ensures var a, b := NonEmpty(s), NonEmpty(t);
      && (forall k | k != Hash && k != StampedAt :: (k in a <==> k in b) && (k in a ==> a[k] == b[k]))
      && OptIntField(b, Hash) == Some(Some(hash)) && IntField(b, StampedAt) == Some(now)
  {
    var a, b := NonEmpty(s), NonEmpty(t);
    forall k | k != Hash && k != StampedAt
      ensures (k in a <==> k in b) && (k in a ==> a[k] == b[k])
    {
      assert Get(t, k) == Get(s, k);
    }
  }

  /** Two option maps whose fields parse alike, apart from hash and freshness, decode alike. */
  lemma SameRead(a: Options, b: Options, hash: u64, now: u64)
    requires FromOptions(a).Prior().Some?
    requires State in b && a[State] == b[State] && SourceField(a) == SourceField(b)
    requires IntField(a, EvidenceAt) == IntField(b, EvidenceAt) && IntField(a, Since) == IntField(b, Since)
    requires IntField(a, Pid) == IntField(b, Pid) && IntField(a, TurnAt) == IntField(b, TurnAt)
    requires OptIntField(a, NotifiedAt) == OptIntField(b, NotifiedAt)
    requires Get(a, Detail) == Get(b, Detail) && Get(a, Attention) == Get(b, Attention)
    requires OptIntField(b, Hash) == Some(Some(hash)) && IntField(b, StampedAt) == Some(now)
    ensures FromOptions(b).Prior()
         == Some(FromOptions(a).Prior().value.(stampedAt := ToMillis(now), hash := Some(hash)))
  {
  }

  lemma SameFields(a: Options, b: Options, hash: u64, now: u64)
    requires forall k | k != Hash && k != StampedAt :: (k in a <==> k in b) && (k in a ==> a[k] == b[k])
    ensures (State in a <==> State in b) && (State in a ==> a[State] == b[State]) && SourceField(a) == SourceField(b)
    ensures IntField(a, EvidenceAt) == IntField(b, EvidenceAt) && IntField(a, Since) == IntField(b, Since)
    ensures IntField(a, Pid) == IntField(b, Pid) && IntField(a, TurnAt) == IntField(b, TurnAt)
    ensures OptIntField(a, NotifiedAt) == OptIntField(b, NotifiedAt)
    ensures Get(a, Detail) == Get(b, Detail) && Get(a, Attention) == Get(b, Attention)
  {
  }

  lemma HoldReads(s: Options, t: Options, hash: u64, now: u64)
    requires ReadPane(s).Prior().Some?
    requires forall k :: k != Hash && k != StampedAt ==> Get(t, k) == Get(s, k)
    requires Get(t, Hash) != "" && ParseU64(Get(t, Hash)) == Some(hash)
    requires Get(t, StampedAt) != "" && ParseU64(Get(t, StampedAt)) == Some(now)
    ensures ReadPane(t).Prior() == Some(ReadPane(s).Prior().value.(stampedAt := ToMillis(now), hash := Some(hash)))
  {
    KeptFields(s, t, hash, now);
    SameFields(NonEmpty(s), NonEmpty(t), hash, now);
    SameRead(NonEmpty(s), NonEmpty(t), hash, now);
  }

  /** A publish without the right to override never contradicts a protected hook claim, except for
      blocker chrome that postdates it. */
  predicate Disciplined(stored: Option<StampedState>, v: Verdict) {
    v.writes.action == Commit && !v.writes.mayOverride && !v.writes.episodeReset ==>
      && (v.source == Hook ==> ProtectedHook(stored).Some? && v.state == stored.value.state)
      && (v.source != Hook ==> v.source == Capture && (v.state == Unknown ==> stored.None?))
      && (v.source != Hook && ProtectedHook(stored).Some? ==> v.state == Blocked && v.at > stored.value.evidenceAt)
  }

  lemma OverrideDiscipline(stored: Option<StampedState>, o: Observation, t: Tuning)
    ensures Disciplined(stored, Judge(stored, o.facts, o.evidence, t.visible, t.cfg, o.now, None))
  {
    LatestMeaning(o.evidence, e => IsHookState(e));
    ScreenMeaning(o.evidence);
  }

  lemma HoldNeedsPrior(stored: Option<StampedState>, o: Observation, t: Tuning)
    ensures var v := Judge(stored, o.facts, o.evidence, t.visible, t.cfg, o.now, None);
      v.writes.action == Hold ==> stored.Some? && v.state == stored.value.state
  {
    LatestMeaning(o.evidence, e => IsHookState(e));
    ScreenMeaning(o.evidence);
  }

  /** The verdict the write guard refuses over a tuple that decodes: chrome over a hook claim of
      `unknown`, which the fold does not protect but the guard does. */
  predicate Stuck(s: Options, v: Verdict) {
    var prev := ReadPane(s).Prior();
    && prev.Some? && prev.value.source == Hook && prev.value.state == Unknown
    && v.writes.action == Commit && !v.writes.mayOverride && !v.writes.episodeReset
    && (v.state == Blocked ==> v.at <= RawEpoch(s, EvidenceAt))
  }

  /** And over one that does not: the fold sees no claim, while the guard still reads `hook` off the
      source option. A blocker gets past only evidence that is older or no number. */
  predicate Hidden(s: Options, v: Verdict) {
    var evidence := Operand(Get(s, EvidenceAt));
    && ReadPane(s).Prior().None? && Get(s, Source) == "hook"
    && v.writes.action == Commit && !v.writes.mayOverride && !v.writes.episodeReset
    && (v.state == Blocked ==> evidence.Some? && v.at <= evidence.value)
  }

  lemma GuardOpens(s: Options, v: Verdict)
    requires v.writes.action == Commit && Disciplined(ReadPane(s).Prior(), v)
    ensures GuardFor(v).Blocks(s) <==> Stuck(s, v) || Hidden(s, v)
  {
    var prev := ReadPane(s).Prior();
    BlocksMeaning(GuardFor(v), s);
    if prev.Some? {
      DecodedFields(s, prev.value);
      HookToken(prev.value.source);
    }
  }

  lemma GuardOpensUnlessRefused(s: Options, o: Observation, t: Tuning)
    requires JudgePane(s, o, t).writes.action == Commit
    ensures var v := JudgePane(s, o, t);
      Commits(s, PublishFor(v, o, t.name)) <==> !Stuck(s, v) && !Hidden(s, v)
  {
    OverrideDiscipline(ReadPane(s).Prior(), o, t);
    GuardOpens(s, JudgePane(s, o, t));
  }

  /** What a reader sees after one cycle, whatever the pane held. The cycle shows its verdict unless the
      guard refuses it or a marker option it does not rewrite is no number. A refusal over a tuple that
      does not decode shows anything only on the chain, whose fresh bookkeeping can make the rest
      decode again. */
  lemma CycleCommits(s: Options, o: Observation, t: Tuning)
    ensures var v, after := JudgePane(s, o, t), ReadPane(Observe(s, o, t)).Prior();
      && (after.Some? <==> && (v.writes.episodeReset || MarkersParse(s))
                           && (Hidden(s, v) ==> t.lane == Chain && ClaimParses(s)))
      && (after.Some? ==>
          (after.value.state == v.state <==> !Stuck(s, v) && (Hidden(s, v) ==> Get(s, State) == v.state.Token())))
  {
    var v := JudgePane(s, o, t);
    if ReadPane(s).Prior().Some? { DecodesExactly(s); }
    if v.writes.action == Hold {
      HoldNeedsPrior(ReadPane(s).Prior(), o, t);
      HoldLeaves(s, o);
    } else if Stuck(s, v) {
      StuckCycle(s, o, t);
    } else if Hidden(s, v) {
      HiddenCycle(s, o, t);
    } else {
      CommittedCycle(s, o, t);
    }
  }

  /** A cycle whose verdict commits leaves that verdict, with attention set or kept, as far as the
      markers it does not rewrite can be read. */
  lemma CommittedCycle(s: Options, o: Observation, t: Tuning)
    requires JudgePane(s, o, t).writes.action == Commit
    requires !Stuck(s, JudgePane(s, o, t)) && !Hidden(s, JudgePane(s, o, t))
    ensures var v, after := JudgePane(s, o, t), ReadPane(Observe(s, o, t)).Prior();
      && (after.Some? <==> v.writes.episodeReset || MarkersParse(s))
      && (after.Some? ==>
        && after.value.state == v.state && after.value.source == v.source
        && after.value.evidenceAt == ToMillis(v.at)
        && (after.value.attention <==>
            v.writes.setAttention || (!v.writes.episodeReset && Get(s, Attention) == "1"))
        && after.value.pid == o.facts.pid)
  {
    var v := JudgePane(s, o, t);
    PlanIsPaired(v, o, t.name);
    GuardOpensUnlessRefused(s, o, t);
    WrittenRead(s, PublishFor(v, o, t.name), t.lane);
  }

  /** A cycle that brings a hook claim shows the newest one, on either lane and over any store whose markers
      it can leave behind or reset. */
  lemma HookClaimReads(s: Options, o: Observation, t: Tuning, i: int)
    requires Verdicts.Newest(o.evidence, i, Verdicts.HOOKS, None)
    ensures var e, after := o.evidence[i], ReadPane(Observe(s, o, t)).Prior();
      && (after.Some? <==> EpisodeReset(ReadPane(s).Prior(), o.facts) || MarkersParse(s))
      && (after.Some? ==>
        && after.value.state == e.claim.state && after.value.source == Hook
        && after.value.evidenceAt == ToMillis(e.at) && after.value.pid == o.facts.pid)
  {
    Verdicts.HookDecides(ReadPane(s).Prior(), o.facts, o.evidence, t.visible, t.cfg, o.now, i);
    CommittedCycle(s, o, t);
  }

  /** On either lane a publish the guard lets in is read back as the claim it carried, if and only if
      the bookkeeping options it leaves alone parse. */
  lemma WrittenRead(s: Options, p: Publish, lane: Lane)
    requires Paired(p) && Commits(s, p) && (p.episodeReset ==> p.guard == Unconditional) && !Tears(TupleOf(s), p)
    ensures var after := ReadPane(Write(s, p, lane)).Prior();
      && (after.Some? <==> KeptParse(s, p))
      && (after.Some? ==>
        && after.value.state == p.state && after.value.source == p.source
        && after.value.evidenceAt == ToMillis(p.evidenceAt) && after.value.pid == p.pid
        && after.value.attention == (p.setAttention || (!p.episodeReset && Get(s, Attention) == "1")))
  {
    CommittedRead(s, p);
    if lane == Transaction {
      GroupEntered(s, p);
      BlocksMeaning(p.guard, s);
      if p.episodeReset {
        assert AdvisoryFor(s, p) == PublishCommands(p);
      } else {
        GroupRead(s, p);
      }
    }
  }

  /** A refused verdict leaves the stored claim of `unknown` standing, evidence time and all. */
  lemma StuckCycle(s: Options, o: Observation, t: Tuning)
    requires Stuck(s, JudgePane(s, o, t))
    ensures var v, prev, after := JudgePane(s, o, t), ReadPane(s).Prior(), ReadPane(Observe(s, o, t)).Prior();
      && after.Some? && after.value.state == Unknown != v.state && after.value.source == Hook
      && after.value.evidenceAt == prev.value.evidenceAt
      && after.value.pid == if t.lane == Chain then o.facts.pid else prev.value.pid
  {
    StuckVerdict(s, o, t);
    if t.lane == Transaction {
      StuckTransaction(s, o, t);
    } else {
      var v := JudgePane(s, o, t);
      PlanIsPaired(v, o, t.name);
      GuardOpensUnlessRefused(s, o, t);
      HeldKeeps(s, PublishFor(v, o, t.name));
    }
  }

  lemma StuckTransaction(s: Options, o: Observation, t: Tuning)
    requires Stuck(s, JudgePane(s, o, t)) && t.lane == Transaction
    ensures Observe(s, o, t) == s
  {
    GuardOpensUnlessRefused(s, o, t);
    GroupEntered(s, PublishFor(JudgePane(s, o, t), o, t.name));
  }

  /** A refused verdict over a tuple that does not decode: the transaction writes nothing at all, the
      chain refreshes the bookkeeping and leaves the claim. */
  lemma HiddenCycle(s: Options, o: Observation, t: Tuning)
    requires Hidden(s, JudgePane(s, o, t))
    ensures t.lane == Transaction ==> Observe(s, o, t) == s
    ensures var after := ReadPane(Observe(s, o, t)).Prior();
      && (after.Some? <==> t.lane == Chain && ClaimParses(s) && MarkersParse(s))
      && (after.Some? ==> after.value.state.Token() == Get(s, State) && after.value.source == Hook)
    ensures !JudgePane(s, o, t).writes.episodeReset
    ensures var v, after := JudgePane(s, o, t), ReadPane(Observe(s, o, t)).Prior();
      after.Some? ==> (after.value.state == v.state <==> Get(s, State) == v.state.Token())
  {
    var v := JudgePane(s, o, t);
    PlanIsPaired(v, o, t.name);
    GuardOpensUnlessRefused(s, o, t);
    HeldRead(s, PublishFor(v, o, t.name));
    GroupEntered(s, PublishFor(v, o, t.name));
    var after := ReadPane(Observe(s, o, t)).Prior();
    if after.Some? {
      HookToken(after.value.source);
      StateTokenRoundTrip(after.value.state, Get(s, State));
      StateTokenRoundTrip(v.state, Get(s, State));
    }
  }

  lemma StuckVerdict(s: Options, o: Observation, t: Tuning)
    requires Stuck(s, JudgePane(s, o, t))
    ensures JudgePane(s, o, t).state != Unknown
  {
    LatestMeaning(o.evidence, e => IsHookState(e));
    ScreenMeaning(o.evidence);
  }

  // ----- safety over runs -----------------------------------------------------------------------

  /** A cycle in which nothing may flip the protected claim `p`. */
  predicate Quiet(p: StampedState, o: Observation, t: Tuning) {
    && !EpisodeReset(Some(p), o.facts)
    && HookSilent(o.evidence)
    && !Flips(p, o.facts, o.evidence, t.visible, t.cfg, o.now)
  }

  predicate QuietRun(s: Options, os: seq<Observation>, t: Tuning)
    decreases |os|
  {
    os != [] ==>
      && ReadPane(s).Prior().Some?
      && Quiet(ReadPane(s).Prior().value, os[0], t)
      && QuietRun(Observe(s, os[0], t), os[1..], t)
  }

  /** A protected hook claim survives every run in which no cycle meets the flip condition, and it
      stays hook-sourced throughout, so it stays protected. */
  lemma {:induction false} HookClaimPersists(s: Options, os: seq<Observation>, t: Tuning)
    requires ReadPane(s).Prior().Some? && ProtectedHook(ReadPane(s).Prior()).Some?
    requires QuietRun(s, os, t)
    ensures var before, after := ReadPane(s).Prior(), ReadPane(ObserveAll(s, os, t)).Prior();
      after.Some? && after.value.state == before.value.state && after.value.source == Hook
    decreases |os|
  {
    if os != [] {
      QuietCycle(s, os[0], t);
      HookClaimPersists(Observe(s, os[0], t), os[1..], t);
    }
  }

  lemma QuietCycle(s: Options, o: Observation, t: Tuning)
    requires ReadPane(s).Prior().Some? && ProtectedHook(ReadPane(s).Prior()).Some?
    requires Quiet(ReadPane(s).Prior().value, o, t)
    ensures var before, after := ReadPane(s).Prior(), ReadPane(Observe(s, o, t)).Prior();
      after.Some? && after.value.state == before.value.state && after.value.source == Hook
  {
    var p := ReadPane(s).Prior().value;
    DecodesExactly(s);
    FlipExactly(p, o.facts, o.evidence, t.visible, t.cfg, o.now);
    QuietSource(p, o, t);
    if JudgePane(s, o, t).writes.action == Hold {
      HoldLeaves(s, o);
    } else {
      CommittedCycle(s, o, t);
    }
  }

  /** Whatever keeps a protected claim's state also keeps its provenance. */
  lemma QuietSource(p: StampedState, o: Observation, t: Tuning)
    requires ProtectedHook(Some(p)).Some? && Quiet(p, o, t)
    ensures Judge(Some(p), o.facts, o.evidence, t.visible, t.cfg, o.now, None).source == Hook
  {
    LatestMeaning(o.evidence, e => IsHookState(e));
    ScreenMeaning(o.evidence);
  }

  /** Nothing claims a state this cycle, and the agent is still there. */
  predicate Silent(p: StampedState, o: Observation) {
    && !EpisodeReset(Some(p), o.facts)
    && HookSilent(o.evidence)
    && (o.facts.foregroundIsAgent || o.facts.pid != 0)
    && !ShowsScreen(o.evidence, Blocked) && !ShowsScreen(o.evidence, Working) && !ShowsScreen(o.evidence, Idle)
  }

  /** Silence alone never changes a live hook claim: after any number of silent cycles, whatever
      their clocks say, the decoded claim differs only in its freshness and hash. */
  lemma {:induction false} SilenceHolds(s: Options, os: seq<Observation>, t: Tuning)
    requires ProtectedHook(ReadPane(s).Prior()).Some?
    requires forall i | 0 <= i < |os| :: Silent(ReadPane(s).Prior().value, os[i])
    ensures var before, after := ReadPane(s).Prior(), ReadPane(ObserveAll(s, os, t)).Prior();
      after.Some? && after.value == before.value.(stampedAt := after.value.stampedAt, hash := after.value.hash)
    decreases |os|
  {
    if os != [] {
      SilentCycle(s, os[0], t);
      var next := Observe(s, os[0], t);
      forall i | 0 <= i < |os[1..]| ensures Silent(ReadPane(next).Prior().value, os[1..][i]) {
        assert Silent(ReadPane(s).Prior().value, os[i + 1]);
      }
      SilenceHolds(next, os[1..], t);
    }
  }

  lemma SilentCycle(s: Options, o: Observation, t: Tuning)
    requires ProtectedHook(ReadPane(s).Prior()).Some?
    requires Silent(ReadPane(s).Prior().value, o)
    ensures var before, after := ReadPane(s).Prior(), ReadPane(Observe(s, o, t)).Prior();
      after.Some? && after.value == before.value.(stampedAt := after.value.stampedAt, hash := after.value.hash)
  {
    LatestMeaning(o.evidence, e => IsHookState(e));
    ScreenMeaning(o.evidence);
    HoldLeaves(s, o);
  }

  // ----- progress over runs ------------------------------------------------------------------------

  /** Only idle chrome on a live agent screen. */
  predicate IdleChrome(p: StampedState, o: Observation) {
    && !EpisodeReset(Some(p), o.facts)
    && HookSilent(o.evidence) && LiveScreen(o.facts)
    && !ShowsScreen(o.evidence, Blocked) && !ShowsScreen(o.evidence, Working) && ShowsScreen(o.evidence, Idle)
  }

  predicate Dwelling(p: StampedState, o: Observation, t: Tuning) {
    SatSub(o.now, p.evidenceAt) <= t.cfg.DwellMs()
  }

  lemma IdleVerdict(p: StampedState, o: Observation, t: Tuning)
    requires p.source != Hook && IdleChrome(p, o)
    ensures var v := Judge(Some(p), o.facts, o.evidence, t.visible, t.cfg, o.now, None);
      && (p.state == Working && Dwelling(p, o, t) ==> v == HoldVerdict(Some(p), false, o.now))
      && (p.state != Working || !Dwelling(p, o, t) ==>
          v.state == Idle && v.source == Capture && v.writes == WritePlan(Commit, false, p.state == Working, false))
  {
    LatestMeaning(o.evidence, e => IsHookState(e));
    ScreenMeaning(o.evidence);
  }

  /** A capture-sourced `working` that sees only idle chrome is held, evidence time frozen, through
      every cycle inside the dwell window, and the first cycle past it publishes idle with
      attention: holds never push the window forward. */
  lemma {:induction false} DwellProgress(s: Options, os: seq<Observation>, last: Observation, t: Tuning)
    requires ReadPane(s).Prior().Some?
    requires var p := ReadPane(s).Prior().value;
      && p.source != Hook && p.state == Working
      && (forall i | 0 <= i < |os| :: IdleChrome(p, os[i]) && Dwelling(p, os[i], t))
      && IdleChrome(p, last) && !Dwelling(p, last, t)
    ensures var before, held, after := ReadPane(s).Prior(), ReadPane(ObserveAll(s, os, t)).Prior(),
                                      ReadPane(Observe(ObserveAll(s, os, t), last, t)).Prior();
      && held.Some? && held.value == before.value.(stampedAt := held.value.stampedAt, hash := held.value.hash)
      && after.Some? && after.value.state == Idle && after.value.source == Capture && after.value.attention
    decreases |os|
  {
    var p := ReadPane(s).Prior().value;
    if os == [] {
      IdleVerdict(p, last, t);
      DecodesExactly(s);
      CommittedCycle(s, last, t);
    } else {
      IdleVerdict(p, os[0], t);
      HoldLeaves(s, os[0]);
      var next := Observe(s, os[0], t);
      forall i | 0 <= i < |os[1..]|
        ensures IdleChrome(ReadPane(next).Prior().value, os[1..][i])
        ensures Dwelling(ReadPane(next).Prior().value, os[1..][i], t)
      {
        assert IdleChrome(p, os[i + 1]) && Dwelling(p, os[i + 1], t);
      }
      DwellProgress(next, os[1..], last, t);
    }
  }

  /** Where blocker chrome of instant `at` gets through over a non-hook prior, or none: always over a
      tuple that decodes; otherwise unless a marker is no number, or the source option still says
      `hook` and the evidence option names no older instant. */
  predicate BlockerPasses(s: Options, at: u64) {
    var evidence := Operand(Get(s, EvidenceAt));
    ReadPane(s).Prior().None? ==>
      MarkersParse(s) && !(Get(s, Source) == "hook" && evidence.Some? && at <= evidence.value)
  }

  /** On a live agent screen without a hook event, blocker chrome over a non-hook prior (or none)
      is written through, so that the pane reads blocked, with attention on entry, exactly there. */
  lemma BlockerLandsExactly(s: Options, o: Observation, t: Tuning)
    requires ReadPane(s).Prior().Some? ==> ReadPane(s).Prior().value.source != Hook
    requires HookSilent(o.evidence) && LiveScreen(o.facts) && ShowsScreen(o.evidence, Blocked)
    ensures var before, after := ReadPane(s).Prior(), ReadPane(Observe(s, o, t)).Prior();
      (&& after.Some? && after.value.state == Blocked && after.value.source == Capture
       && (before.None? || before.value.state != Blocked ==> after.value.attention))
      <==> BlockerPasses(s, JudgePane(s, o, t).at)
    ensures exists e | e in o.evidence && IsScreen(e, Blocked) :: JudgePane(s, o, t).at == e.at
    ensures forall e | e in o.evidence && IsScreen(e, Blocked) :: e.at <= JudgePane(s, o, t).at
  {
    LatestMeaning(o.evidence, e => IsHookState(e));
    ScreenMeaning(o.evidence);
    if ReadPane(s).Prior().Some? { DecodesExactly(s); }
    if Hidden(s, JudgePane(s, o, t)) {
      HiddenCycle(s, o, t);
    } else {
      CommittedCycle(s, o, t);
    }
  }

  // ----- tuples that no cycle repairs ----------------------------------------------------------------

  /** The markers survive every publish that is no episode reset. */
  lemma WriteKeepsMarkers(s: Options, p: Publish, lane: Lane)
    requires Paired(p) && !p.episodeReset && !Tears(TupleOf(s), p)
    ensures MarkersParse(Write(s, p, lane)) <==> MarkersParse(s)
  {
    FreshnessSuffix(s, GuardedCommands(p), p);
    GuardedOutcome(s, p);
    AdvisoryTexts(s, p);
    GroupEntered(s, p);
    var after := Write(s, p, lane);
    assert MarkersOf(after).notifiedAt == MarkersOf(s).notifiedAt && MarkersOf(after).turnAt == MarkersOf(s).turnAt;
  }

  /** A marker option that is no number makes the pane undecodable, and no run of cycles, whatever is
      observed, makes it decode again: an episode reset, which alone would clear the marker, needs a
      decoded prior. */
  lemma {:induction false} BadMarkerNeverRepaired(s: Options, os: seq<Observation>, t: Tuning)
    requires !MarkersParse(s)
    ensures ReadPane(ObserveAll(s, os, t)).Prior().None?
    decreases |os|
  {
    DecodesExactly(s);
    if os != [] {
      var v := JudgePane(s, os[0], t);
      HoldNeedsPrior(ReadPane(s).Prior(), os[0], t);
      NoPriorNoReset(s, os[0], t);
      PlanIsPaired(v, os[0], t.name);
      WriteKeepsMarkers(s, PublishFor(v, os[0], t.name), t.lane);
      BadMarkerNeverRepaired(Observe(s, os[0], t), os[1..], t);
    }
  }

  lemma NoPriorNoReset(s: Options, o: Observation, t: Tuning)
    requires ReadPane(s).Prior().None?
    ensures !JudgePane(s, o, t).writes.episodeReset
  {
    LatestMeaning(o.evidence, e => IsHookState(e));
  }

  /** The agent owns the foreground, no hook has spoken, and no blocker is newer than the evidence
      option of the pane. */
  predicate Outranked(s: Options, o: Observation) {
    var evidence := Operand(Get(s, EvidenceAt));
    && HookSilent(o.evidence) && o.facts.foregroundIsAgent
    && forall e | e in o.evidence && IsScreen(e, Blocked) :: evidence.Some? && e.at <= evidence.value
  }

  /** A tuple that does not decode but says `hook`: on the transaction such cycles write nothing, so the
      store stays as it is however many of them run. */
  lemma {:induction false} HiddenHookNeverRepaired(s: Options, os: seq<Observation>, t: Tuning)
    requires t.lane == Transaction && ReadPane(s).Prior().None? && Get(s, Source) == "hook"
    requires forall i | 0 <= i < |os| :: Outranked(s, os[i])
    ensures ObserveAll(s, os, t) == s
    decreases |os|
  {
    if os != [] {
      LatestMeaning(os[0].evidence, e => IsHookState(e));
      ScreenMeaning(os[0].evidence);
      assert Outranked(s, os[0]);
      HiddenCycle(s, os[0], t);
      HiddenHookNeverRepaired(s, os[1..], t);
    }
  }

  /** No blocker chrome, no hook event, and agent pid `pid` throughout. */
  predicate Unblocked(o: Observation, pid: u32) {
    o.facts.pid == pid && LiveScreen(o.facts) && HookSilent(o.evidence) && !ShowsScreen(o.evidence, Blocked)
  }

  /** A hook claim of `unknown` on a pane whose agent is (or will be) `pid`. */
  predicate UnknownHook(prev: Option<StampedState>, pid: u32) {
    && prev.Some? && prev.value.source == Hook && prev.value.state == Unknown
    && (prev.value.pid == pid || prev.value.pid == 0 || pid == 0)
  }

  lemma UnknownCycle(s: Options, o: Observation, pid: u32, t: Tuning)
    requires UnknownHook(ReadPane(s).Prior(), pid) && Unblocked(o, pid)
    ensures UnknownHook(ReadPane(Observe(s, o, t)).Prior(), pid)
  {
    LatestMeaning(o.evidence, e => IsHookState(e));
    ScreenMeaning(o.evidence);
    DecodesExactly(s);
    if JudgePane(s, o, t).writes.action == Hold {
      HoldLeaves(s, o);
    } else {
      StuckCycle(s, o, t);
    }
  }

  /** The refusal recurs: once its hooks have claimed `unknown`, a pane does not leave that state
      through working or idle chrome, however many cycles show it. */
  lemma {:induction false} UnknownHookNeverLeaves(s: Options, os: seq<Observation>, pid: u32, t: Tuning)
    requires UnknownHook(ReadPane(s).Prior(), pid)
    requires forall i | 0 <= i < |os| :: Unblocked(os[i], pid)
    ensures UnknownHook(ReadPane(ObserveAll(s, os, t)).Prior(), pid)
    decreases |os|
  {
    if os != [] {
      UnknownCycle(s, os[0], pid, t);
      UnknownHookNeverLeaves(Observe(s, os[0], t), os[1..], pid, t);
    }
  }

  /** A hook claim of `unknown`, and a cycle that sees idle chrome. */
  function UnknownPane(): Options {
    map[State := Unknown.Token(), Source := Hook.Token()]
  }

  function ScreenCycle(state: AgentState, pid: u32, at: u64): Observation {
    Observation(SnapshotFacts(pid, true, false, false), [Evidence(ScreenRule, StateClaim(state, None), at)], 0, at)
  }

  lemma ScreenSees(state: AgentState, pid: u32, at: u64)
    ensures var o := ScreenCycle(state, pid, at);
      && HookSilent(o.evidence) && ShowsScreen(o.evidence, state)
      && (forall other: AgentState | other != state :: !ShowsScreen(o.evidence, other))
  {
    var o := ScreenCycle(state, pid, at);
    assert o.evidence[0] in o.evidence && IsScreen(o.evidence[0], state);
  }

  /** The refused verdict is reachable: on such a pane, whatever the tuning, an idle screen is judged
      idle and the write guard refuses it. */
  lemma StuckWitness(pid: u32, at: u64, t: Tuning)
    ensures JudgePane(UnknownPane(), ScreenCycle(Idle, pid, at), t).state == Idle
    ensures Stuck(UnknownPane(), JudgePane(UnknownPane(), ScreenCycle(Idle, pid, at), t))
    ensures var after := ReadPane(Observe(UnknownPane(), ScreenCycle(Idle, pid, at), t)).Prior();
      after.Some? && after.value.state == Unknown
  {
    var s, o := UnknownPane(), ScreenCycle(Idle, pid, at);
    DecodeTexts(s, Unknown, Hook, 0, 0, 0, 0);
    LatestMeaning(o.evidence, e => IsHookState(e));
    ScreenMeaning(o.evidence);
    ScreenSees(Idle, pid, at);
    StuckCycle(s, o, t);
  }

  /** A hook claim whose `since` is no number, and a pane whose notification marker is none. */
  function GarbledHook(): Options {
    map[State := Idle.Token(), Source := Hook.Token(), Since := "x"]
  }

  function GarbledMarker(): Options {
    map[State := Idle.Token(), NotifiedAt := "x"]
  }

  /** So is the refusal over a tuple that does not decode: a working screen is judged working, and the
      pane is not repaired. */
  lemma GarbledHookWitness(pid: u32, at: u64, t: Tuning)
    ensures var s, o := GarbledHook(), ScreenCycle(Working, pid, at);
      && ReadPane(s).Malformed? && JudgePane(s, o, t).state == Working
      && Hidden(s, JudgePane(s, o, t)) && ReadPane(Observe(s, o, t)).Prior().None?
  {
    var s, o := GarbledHook(), ScreenCycle(Working, pid, at);
    assert FieldReads(Get(s, Since)).None? by { assert !IsDigit("x"[0]); }
    DecodesExactly(s);
    AbsentState(s);
    LatestMeaning(o.evidence, e => IsHookState(e));
    ScreenMeaning(o.evidence);
    ScreenSees(Working, pid, at);
    HiddenCycle(s, o, t);
  }

  lemma GarbledMarkerReads()
    ensures ReadPane(GarbledMarker()).Malformed? && !MarkersParse(GarbledMarker())
  {
    var s := GarbledMarker();
    assert FieldReads(Get(s, NotifiedAt)).None? by { assert !IsDigit("x"[0]); }
    DecodesExactly(s);
    AbsentState(s);
  }

  /** And a blocker that no reader ever sees: it is written, but the marker beside it is no number. */
  lemma GarbledMarkerWitness(pid: u32, at: u64, t: Tuning)
    ensures var s, o := GarbledMarker(), ScreenCycle(Blocked, pid, at);
      && ReadPane(s).Malformed? && JudgePane(s, o, t).state == Blocked
      && !Hidden(s, JudgePane(s, o, t)) && ReadPane(Observe(s, o, t)).Prior().None?
  {
    var s, o := GarbledMarker(), ScreenCycle(Blocked, pid, at);
    GarbledMarkerReads();
    LatestMeaning(o.evidence, e => IsHookState(e));
    ScreenMeaning(o.evidence);
    ScreenSees(Blocked, pid, at);
    CycleCommits(s, o, t);
    NoPriorNoReset(s, o, t);
  }
}
